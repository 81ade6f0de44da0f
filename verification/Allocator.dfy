/**
  Handing out the lowest free index of a range, one call after another.

  The indices, their names and what it means for a name to use an index are
  parameters, so nothing here depends on what is being allocated. What is handed
  out ascends, stays in the range, and is unused by anything taken before.
 */
module Allocator {
  import opened Prelude

  /** `(lo..hi).find(p)` */
  function FindFrom(lo: nat, hi: nat, p: nat -> bool): Option<nat>
    decreases hi - lo
  {
    if lo >= hi then None
    else if p(lo) then Some(lo)
    else FindFrom(lo + 1, hi, p)
  }

  lemma {:induction false} FindFromIsLowest(lo: nat, hi: nat, p: nat -> bool)
    ensures FindFrom(lo, hi, p).None? <==> forall k: nat | lo <= k < hi :: !p(k)
    ensures FindFrom(lo, hi, p).Some? ==>
              var s := FindFrom(lo, hi, p).value;
              lo <= s < hi && p(s) && forall k: nat | lo <= k < s :: !p(k)
    decreases hi - lo
  {
    if lo < hi && !p(lo) {
      FindFromIsLowest(lo + 1, hi, p);
    }
  }

  lemma {:induction false} FindFromSame(lo: nat, hi: nat, p: nat -> bool, q: nat -> bool)
    requires forall k: nat | lo <= k < hi :: p(k) == q(k)
    ensures FindFrom(lo, hi, p) == FindFrom(lo, hi, q)
    decreases hi - lo
  {
    if lo < hi && !p(lo) {
      FindFromSame(lo + 1, hi, p, q);
    }
  }

  /** Whether a taken name uses an element. */
  type Uses = (string, nat) -> bool

  predicate Unused(uses: Uses, k: nat, taken: seq<string>) {
    forall t | t in taken :: !uses(t, k)
  }

  function FirstUnused(uses: Uses, lo: nat, hi: nat, taken: seq<string>): Option<nat> {
    FindFrom(lo, hi, (k: nat) => Unused(uses, k, taken))
  }

  lemma FirstUnusedIsLowest(uses: Uses, lo: nat, hi: nat, taken: seq<string>)
    requires FirstUnused(uses, lo, hi, taken).Some?
    ensures var s := FirstUnused(uses, lo, hi, taken).value;
            lo <= s < hi && Unused(uses, s, taken) && forall k: nat | lo <= k < s :: !Unused(uses, k, taken)
  {
    var p := (k: nat) => Unused(uses, k, taken);
    FindFromIsLowest(lo, hi, p);
    assert forall k: nat :: p(k) == Unused(uses, k, taken);
  }

  /** What repeated calls hand out, each name appended to the taken ones before the next call. */
  function HandOut(uses: Uses, name: nat -> string, lo: nat, hi: nat, taken: seq<string>, calls: nat): seq<nat>
    decreases calls
  {
    if calls == 0 then []
    else
      match FirstUnused(uses, lo, hi, taken)
      case None => []
      case Some(k) => [k] + HandOut(uses, name, lo, hi, taken + [name(k)], calls - 1)
  }

  /** Ascending elements of the range from `floor` up, each unused by what was taken. */
  ghost predicate Ascending(uses: Uses, lo: nat, hi: nat, floor: nat, taken: seq<string>, out: seq<nat>) {
    && (forall i | 0 <= i < |out| :: lo <= out[i] < hi && floor <= out[i] && Unused(uses, out[i], taken))
    && (forall i, j | 0 <= i < j < |out| :: out[i] < out[j])
  }

  lemma UnusedBefore(uses: Uses, k: nat, taken: seq<string>, added: string)
    requires Unused(uses, k, taken + [added])
    ensures Unused(uses, k, taken)
  {
    forall t | t in taken ensures !uses(t, k) {
      assert t in taken + [added];
    }
  }

  lemma {:induction false} HandOutAscends(
    uses: Uses, name: nat -> string, lo: nat, hi: nat, taken: seq<string>, calls: nat, floor: nat)
    requires forall k: nat :: uses(name(k), k)
    requires forall k: nat | lo <= k < floor :: !Unused(uses, k, taken)
    ensures Ascending(uses, lo, hi, floor, taken, HandOut(uses, name, lo, hi, taken, calls))
    decreases calls
  {
    if calls > 0 && FirstUnused(uses, lo, hi, taken).Some? {
      FirstUnusedIsLowest(uses, lo, hi, taken);
      var s := FirstUnused(uses, lo, hi, taken).value;
      var more := taken + [name(s)];
      forall k: nat | lo <= k < s + 1 ensures !Unused(uses, k, more) {
        assert name(s) in more;
        if Unused(uses, k, more) {
          UnusedBefore(uses, k, taken, name(s));
        }
      }
      HandOutAscends(uses, name, lo, hi, more, calls - 1, s + 1);
    }
  }

  function Named(name: nat -> string, k: Option<nat>): Option<string> {
    match k case Some(n) => Some(name(n)) case None => None
  }

  function Names(name: nat -> string, ks: seq<nat>): (r: seq<string>)
    ensures |r| == |ks| && forall i | 0 <= i < |ks| :: r[i] == name(ks[i])
  {
    if ks == [] then [] else [name(ks[0])] + Names(name, ks[1..])
  }

  /** Calling `first` up to `calls` times, each result appended to the taken list before the next call. */
  function Repeat(first: seq<string> -> Option<string>, taken: seq<string>, calls: nat): seq<string>
    decreases calls
  {
    if calls == 0 then []
    else
      match first(taken)
      case None => []
      case Some(text) => [text] + Repeat(first, taken + [text], calls - 1)
  }

  lemma {:induction false} RepeatHandsOut(
    first: seq<string> -> Option<string>, uses: Uses, name: nat -> string, lo: nat, hi: nat, taken: seq<string>, calls: nat)
    requires forall ts: seq<string> :: first(ts) == Named(name, FirstUnused(uses, lo, hi, ts))
    ensures Repeat(first, taken, calls) == Names(name, HandOut(uses, name, lo, hi, taken, calls))
    decreases calls
  {
    if calls > 0 && first(taken).Some? {
      var k := FirstUnused(uses, lo, hi, taken).value;
      RepeatHandsOut(first, uses, name, lo, hi, taken + [name(k)], calls - 1);
      var rest := HandOut(uses, name, lo, hi, taken + [name(k)], calls - 1);
      assert ([k] + rest)[1..] == rest;
    }
  }

  lemma {:induction false} AscendingFits(s: seq<nat>, lo: nat, hi: nat)
    requires forall i | 0 <= i < |s| :: lo <= s[i] < hi
    requires forall i, j | 0 <= i < j < |s| :: s[i] < s[j]
    requires lo <= hi
    ensures |s| <= hi - lo
    decreases |s|
  {
    if s != [] {
      AscendingFits(s[1..], s[0] + 1, hi);
    }
  }
}
