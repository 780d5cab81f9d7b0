/**
 * Turning the batch-sized array of accepted-or-empty slots into the array
 * of accepted transactions (the end of handleTxs).
 *
 * The source copies each filled slot i to position i of an array whose
 * length is the number of filled slots. That is right only when the filled
 * slots form a prefix; otherwise some filled slot has an index at least the
 * length and the copy fails with an index out of bounds. CompactAsWritten
 * models the copy as written and AsWrittenSucceedsIffPrefix characterises
 * when it fails; Compact is the intended compaction, with a separate write
 * index, and is the one the handler uses.
 */
module Compaction {
  import opened Ledger

  /** The values of the filled slots, in slot order. */
  function Somes<T>(slots: seq<Option<T>>): seq<T> {
    if slots == [] then []
    else Somes(slots[..|slots| - 1]) + (if slots[|slots| - 1].Some? then [slots[|slots| - 1].value] else [])
  }

  /** The indices of the filled slots, in increasing order. */
  function FilledIndices<T>(slots: seq<Option<T>>): seq<int> {
    if slots == [] then []
    else FilledIndices(slots[..|slots| - 1]) + (if slots[|slots| - 1].Some? then [|slots| - 1] else [])
  }

  lemma {:induction false} SomesAppend<T>(a: seq<Option<T>>, b: seq<Option<T>>)
    ensures Somes(a + b) == Somes(a) + Somes(b)
  {
    if b != [] {
      var b' := b[..|b| - 1];
      assert (a + b)[..|a + b| - 1] == a + b';
      SomesAppend(a, b');
    } else {
      assert a + b == a;
    }
  }

  /**
   * Somes keeps exactly the filled slots, in their original order: its k-th
   * element is the value of the k-th filled slot, the filled indices
   * increase strictly, and every filled slot is among them. This is the
   * gap-free, order-preserving shape the handler's result promises.
   */
  lemma {:induction false} SomesIsOrderedSelection<T>(slots: seq<Option<T>>)
    ensures |Somes(slots)| == |FilledIndices(slots)|
    ensures forall a :: 0 <= a < |FilledIndices(slots)| ==>
      0 <= FilledIndices(slots)[a] < |slots| && slots[FilledIndices(slots)[a]] == Some(Somes(slots)[a])
    ensures forall a, b :: 0 <= a < b < |FilledIndices(slots)| ==> FilledIndices(slots)[a] < FilledIndices(slots)[b]
    ensures forall j :: 0 <= j < |slots| && slots[j].Some? ==> j in FilledIndices(slots)
  {
    if slots != [] {
      var front := slots[..|slots| - 1];
      SomesIsOrderedSelection(front);
      forall j | 0 <= j < |front| ensures slots[j] == front[j] { }
    }
  }

  /** Every filled slot of s comes before every empty one. */
  predicate FilledPrefix<T>(slots: seq<Option<T>>) {
    forall p, q :: 0 <= p < q < |slots| && slots[p].None? ==> slots[q].None?
  }

  lemma {:induction false} SomesAllNone<T>(slots: seq<Option<T>>)
    requires forall j :: 0 <= j < |slots| ==> slots[j].None?
    ensures Somes(slots) == []
  {
    if slots != [] {
      SomesAllNone(slots[..|slots| - 1]);
    }
  }

  /** At most one value per slot, and strictly fewer when some slot is empty. */
  lemma {:induction false} SomesLength<T>(slots: seq<Option<T>>)
    ensures |Somes(slots)| <= |slots|
    ensures (exists j :: 0 <= j < |slots| && slots[j].None?) ==> |Somes(slots)| < |slots|
  {
    if slots != [] {
      var front := slots[..|slots| - 1];
      SomesLength(front);
      if exists j :: 0 <= j < |slots| && slots[j].None? {
        var j :| 0 <= j < |slots| && slots[j].None?;
        if j < |front| {
          assert front[j].None?;
        }
      }
    }
  }

  /** A prefix of the slots yields a prefix of the values. */
  lemma SomesOfPrefix<T>(slots: seq<Option<T>>, i: int)
    requires 0 <= i <= |slots|
    ensures Somes(slots[..i]) <= Somes(slots)
  {
    assert slots == slots[..i] + slots[i..];
    SomesAppend(slots[..i], slots[i..]);
  }

  /**
   * The intended compaction, with a running write index: the result lists
   * the values of the filled slots, in slot order, with no gaps.
   */
  method Compact<T(0)>(validTransactions: array<Option<T>>) returns (result: array<T>)
    ensures fresh(result)
    ensures result[..] == Somes(validTransactions[..])
  {
    var size := 0;
    var i := 0;
    while i < validTransactions.Length
      invariant 0 <= i <= validTransactions.Length
      invariant size == |Somes(validTransactions[..i])|
    {
      assert validTransactions[..i + 1][..i] == validTransactions[..i];
      if validTransactions[i].Some? {
        size := size + 1;
      }
      i := i + 1;
    }
    assert validTransactions[..i] == validTransactions[..];
    result := new T[size];
    var written := 0;
    i := 0;
    while i < validTransactions.Length
      invariant 0 <= i <= validTransactions.Length
      invariant written == |Somes(validTransactions[..i])| <= size
      invariant result[..written] == Somes(validTransactions[..i])
    {
      assert validTransactions[..i + 1][..i] == validTransactions[..i];
      if validTransactions[i].Some? {
        SomesOfPrefix(validTransactions[..], i + 1);
        assert validTransactions[..][..i + 1] == validTransactions[..i + 1];
        result[written] := validTransactions[i].value;
        written := written + 1;
      }
      i := i + 1;
    }
    assert validTransactions[..i] == validTransactions[..];
    assert result[..written] == result[..];
  }

  /** How the copy at the end of handleTxs can end. */
  datatype Outcome<T> = Returned(value: T) | IndexOutOfBounds(index: int)

  /**
   * The copy loop as written, from slot i on: a filled slot j is written to
   * position j of out, which fails once j is not below |out|.
   */
  function CopyToSameIndex<T>(slots: seq<Option<T>>, i: int, out: seq<Option<T>>): Outcome<seq<Option<T>>>
    requires 0 <= i <= |slots|
    decreases |slots| - i
  {
    if i == |slots| then Returned(out)
    else if slots[i].None? then CopyToSameIndex(slots, i + 1, out)
    else if i < |out| then CopyToSameIndex(slots, i + 1, out[i := slots[i]])
    else IndexOutOfBounds(i)
  }

  /** The compaction as written: an array of |Somes(slots)| empty slots, filled at the source indices. */
  function CompactAsWritten<T>(slots: seq<Option<T>>): Outcome<seq<Option<T>>> {
    CopyToSameIndex(slots, 0, seq(|Somes(slots)|, _ => None))
  }

  lemma {:induction false} CopyToSameIndexOutcome<T>(slots: seq<Option<T>>, i: int, out: seq<Option<T>>)
    requires 0 <= i <= |slots|
    ensures CopyToSameIndex(slots, i, out).Returned? <==>
      forall j :: i <= j < |slots| && slots[j].Some? ==> j < |out|
    ensures CopyToSameIndex(slots, i, out).Returned? ==>
      var r := CopyToSameIndex(slots, i, out).value;
      |r| == |out| &&
      forall m :: 0 <= m < |out| ==> r[m] == (if i <= m < |slots| && slots[m].Some? then slots[m] else out[m])
    decreases |slots| - i
  {
    if i < |slots| {
      if slots[i].None? {
        CopyToSameIndexOutcome(slots, i + 1, out);
      } else if i < |out| {
        CopyToSameIndexOutcome(slots, i + 1, out[i := slots[i]]);
      }
    }
  }

  /** When the filled slots form a prefix, the copy as written returns exactly those slots. */
  lemma PrefixCopySucceeds<T>(slots: seq<Option<T>>)
    requires FilledPrefix(slots)
    ensures CompactAsWritten(slots).Returned?
    ensures var r := CompactAsWritten(slots).value;
      |r| == |Somes(slots)| && forall m :: 0 <= m < |r| ==> r[m] == Some(Somes(slots)[m])
  {
    var k := FilledLength(slots);
    assert slots == slots[..k] + slots[k..];
    SomesAppend(slots[..k], slots[k..]);
    SomesAllNone(slots[k..]);
    AllFilled(slots[..k]);
    var n := |Somes(slots)|;
    assert n == k;
    forall m | 0 <= m < n ensures Some(Somes(slots)[m]) == slots[m] {
      assert slots[..k][m] == slots[m];
    }
    CopyToSameIndexOutcome(slots, 0, seq(n, _ => None));
  }

  /** The number of leading filled slots of a prefix-shaped sequence; all later slots are empty. */
  lemma FilledLength<T>(slots: seq<Option<T>>) returns (k: int)
    requires FilledPrefix(slots)
    ensures 0 <= k <= |slots|
    ensures forall j :: 0 <= j < k ==> slots[j].Some?
    ensures forall j :: k <= j < |slots| ==> slots[j].None?
  {
    k := 0;
    while k < |slots| && slots[k].Some?
      invariant 0 <= k <= |slots|
      invariant forall j :: 0 <= j < k ==> slots[j].Some?
    {
      k := k + 1;
    }
  }

  /**
   * When some empty slot precedes a filled one, some filled slot has an
   * index at least the number of filled slots, so the copy as written fails.
   */
  lemma GapMakesCopyFail<T>(slots: seq<Option<T>>)
    requires !FilledPrefix(slots)
    ensures CompactAsWritten(slots).IndexOutOfBounds?
  {
    var n := |Somes(slots)|;
    SomesLength(slots);
    var p, q :| 0 <= p < q < |slots| && slots[p].None? && slots[q].Some?;
    if forall j :: n <= j < |slots| ==> slots[j].None? {
      // The first n slots would then hold all n values, although slot p among them is empty.
      assert slots == slots[..n] + slots[n..];
      SomesAppend(slots[..n], slots[n..]);
      SomesAllNone(slots[n..]);
      assert slots[..n][p].None?;
      SomesLength(slots[..n]);
      assert false;
    }
    CopyToSameIndexOutcome(slots, 0, seq(n, _ => None));
  }

  /**
   * The copy as written succeeds exactly when the filled slots form a
   * prefix, and then it returns the same values, in the same order, as the
   * intended compaction.
   */
  lemma AsWrittenSucceedsIffPrefix<T>(slots: seq<Option<T>>)
    ensures CompactAsWritten(slots).Returned? <==> FilledPrefix(slots)
    ensures CompactAsWritten(slots).Returned? ==>
      var r := CompactAsWritten(slots).value;
      |r| == |Somes(slots)| && forall m :: 0 <= m < |r| ==> r[m] == Some(Somes(slots)[m])
  {
    if FilledPrefix(slots) {
      PrefixCopySucceeds(slots);
    } else {
      GapMakesCopyFail(slots);
    }
  }

  lemma {:induction false} AllFilled<T>(slots: seq<Option<T>>)
    requires forall j :: 0 <= j < |slots| ==> slots[j].Some?
    ensures |Somes(slots)| == |slots|
    ensures forall m :: 0 <= m < |slots| ==> slots[m] == Some(Somes(slots)[m])
  {
    if slots != [] {
      AllFilled(slots[..|slots| - 1]);
    }
  }

  /** A rejected transaction followed by an accepted one makes the copy as written fail. */
  lemma RejectedThenAcceptedFails<T>(t: T)
    ensures CompactAsWritten([None, Some(t)]) == IndexOutOfBounds(1)
    ensures Somes([None, Some(t)]) == [t]
  {
    var slots: seq<Option<T>> := [None, Some(t)];
    assert slots[..1] == [None];
    assert Somes(slots[..1]) == [];
    assert Somes(slots) == [t];
    var empty: seq<Option<T>> := [None];
    assert seq(|Somes(slots)|, _ => None) == empty;
    assert CopyToSameIndex(slots, 1, empty) == IndexOutOfBounds(1);
  }
}
