/** The monitor enablement registry: toggling a display identifier in the
    persisted, ordered list of enabled monitors. */
module Registry {
  import opened Wrappers
  import opened Seqs
  import opened Displays

  /** `firstIndex(of:)`: the position of the first occurrence of `x`. */
  function FirstIndexOf(s: seq<DisplayId>, x: DisplayId): (k: Option<nat>)
    ensures k.Some? ==> k.value < |s| && s[k.value] == x
    ensures k.Some? ==> forall j :: 0 <= j < k.value ==> s[j] != x
    ensures k.None? ==> forall j :: 0 <= j < |s| ==> s[j] != x
  {
    FirstWhere(s, (y: DisplayId) => y == x)
  }

  /** The stored list read as a list: an absent list is the empty one. */
  function Loaded(stored: Option<seq<DisplayId>>): (s: seq<DisplayId>)
    ensures stored.None? ==> s == []
    ensures stored.Some? ==> s == stored.value
  {
    stored.GetOr([])
  }

  /** The list after toggling `x`: its first occurrence removed when it is
      present, otherwise `x` put at the front. */
  function Toggle(s: seq<DisplayId>, x: DisplayId): (r: seq<DisplayId>)
    ensures x !in s ==> r == [x] + s
    ensures x in s ==> |r| == |s| - 1
  {
    match FirstIndexOf(s, x)
    case Some(i) => RemoveAt(s, i)
    case None => [x] + s
  }

  /** Removing a present identifier deletes exactly its first occurrence:
      the elements before and after it stay, in their order. */
  lemma ToggleRemovesFirstOccurrence(s: seq<DisplayId>, x: DisplayId)
    requires x in s
    ensures exists i :: 0 <= i < |s| && s[i] == x && (forall j :: 0 <= j < i ==> s[j] != x) &&
                        Toggle(s, x) == s[..i] + s[i + 1..]
  {
    var i := FirstIndexOf(s, x).value;
    assert Toggle(s, x) == s[..i] + s[i + 1..];
  }

  /** As multisets, toggling removes one copy of a present identifier and
      adds one copy of an absent one; nothing else changes. */
  lemma ToggleMultiset(s: seq<DisplayId>, x: DisplayId)
    ensures multiset(Toggle(s, x)) == if x in s then multiset(s) - multiset{x} else multiset(s) + multiset{x}
  {
    if x in s {
      var i := FirstIndexOf(s, x).value;
      assert s == s[..i] + [x] + s[i + 1..];
      assert multiset(s) == multiset(s[..i]) + multiset{x} + multiset(s[i + 1..]);
    }
  }

  /** Toggling keeps a list free of duplicates. */
  lemma ToggleNoDup(s: seq<DisplayId>, x: DisplayId)
    requires NoDup(s)
    ensures NoDup(Toggle(s, x))
  {
  }

  /** On a list without duplicates, toggling flips the membership of `x`
      and leaves the membership of every other identifier alone. */
  lemma ToggleFlipsMembership(s: seq<DisplayId>, x: DisplayId)
    requires NoDup(s)
    ensures x in Toggle(s, x) <==> x !in s
    ensures forall y :: y != x ==> (y in Toggle(s, x) <==> y in s)
  {
  }

  /** The part of the flip that concerns `x` alone. */
  lemma ToggleFlipsOwnMembership(s: seq<DisplayId>, x: DisplayId)
    requires NoDup(s)
    ensures x in Toggle(s, x) <==> x !in s
  {
    ToggleFlipsMembership(s, x);
  }

  /** Toggling an absent identifier twice gives back the original list. */
  lemma ToggleTwiceRestores(s: seq<DisplayId>, x: DisplayId)
    requires x !in s
    ensures Toggle(Toggle(s, x), x) == s
  {
  }

  /** The list after `n` toggles of `x`. */
  function ToggleTimes(s: seq<DisplayId>, x: DisplayId, n: nat): seq<DisplayId>
  {
    if n == 0 then s else Toggle(ToggleTimes(s, x, n - 1), x)
  }

  /** Toggling any number of times keeps a list free of duplicates. */
  lemma {:induction false} ToggleTimesNoDup(s: seq<DisplayId>, x: DisplayId, n: nat)
    requires NoDup(s)
    ensures NoDup(ToggleTimes(s, x, n))
  {
    if n > 0 {
      ToggleTimesNoDup(s, x, n - 1);
      ToggleNoDup(ToggleTimes(s, x, n - 1), x);
    }
  }

  /** Each further toggle flips the membership of `x`. */
  lemma ToggleTimesStep(s: seq<DisplayId>, x: DisplayId, n: nat)
    requires NoDup(s) && n > 0
    ensures x in ToggleTimes(s, x, n) <==> x !in ToggleTimes(s, x, n - 1)
  {
    ToggleTimesNoDup(s, x, n - 1);
    ToggleFlipsOwnMembership(ToggleTimes(s, x, n - 1), x);
  }

  /** One more flip of a bit that tracked the parity of `n - 1` tracks the parity of `n`. */
  lemma ParityStep(before: bool, after: bool, initially: bool, n: nat)
    requires n > 0
    requires before <==> (initially <==> (n - 1) % 2 == 0)
    requires after <==> !before
    ensures after <==> (initially <==> n % 2 == 0)
  {
  }

  /** Starting from a list without duplicates, `x` is enabled after an odd
      number of toggles exactly when it was disabled, and after an even
      number exactly when it was enabled. */
  lemma {:induction false} ToggleParity(s: seq<DisplayId>, x: DisplayId, n: nat)
    requires NoDup(s)
    ensures x in ToggleTimes(s, x, n) <==> (x in s <==> n % 2 == 0)
  {
    if n > 0 {
      ToggleParity(s, x, n - 1);
      ToggleTimesStep(s, x, n);
      ParityStep(x in ToggleTimes(s, x, n - 1), x in ToggleTimes(s, x, n), x in s, n);
    }
  }
}
