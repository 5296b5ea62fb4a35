/** `rows.sort(key=lambda row: row["submittedAt"])` in api/aws_bucket_reader.py:
    Python's string order, a reference definition of the stable sort, its
    properties, and the sort done in place on an array. */
module LeadSort {
  import opened Leads

  // ---------------------------------------------------------------------------
  // Python's `<` on str

  /** Code-point lexicographic order; a proper prefix comes first. */
  predicate Less(a: string, b: string): (r: bool)
    ensures r ==> a != b
    ensures a < b ==> r
    decreases |a|
  {
    if a == [] then b != []
    else b != [] && (a[0] < b[0] || (a[0] == b[0] && Less(a[1..], b[1..])))
  }

  lemma {:induction false} LessIrreflexive(a: string)
    ensures !Less(a, a)
    decreases |a|
  {
    if a != [] {
      LessIrreflexive(a[1..]);
    }
  }

  lemma {:induction false} LessTransitive(a: string, b: string, c: string)
    requires Less(a, b) && Less(b, c)
    ensures Less(a, c)
    decreases |a|
  {
    if a != [] && a[0] == b[0] && b[0] == c[0] {
      LessTransitive(a[1..], b[1..], c[1..]);
    }
  }

  lemma {:induction false} LessTotal(a: string, b: string)
    ensures a == b || Less(a, b) || Less(b, a)
    decreases |a|
  {
    if a != [] && b != [] && a[0] == b[0] {
      LessTotal(a[1..], b[1..]);
      if a[1..] == b[1..] {
        assert a == [a[0]] + a[1..] && b == [b[0]] + b[1..];
      }
    }
  }

  /** "Not after": the order the sort leaves neighbours in. */
  lemma NotAfterTransitive(a: string, b: string, c: string)
    requires !Less(b, a) && !Less(c, b)
    ensures !Less(c, a)
  {
    LessTotal(a, b);
    LessTotal(b, c);
    if a != b && b != c {
      LessTransitive(a, b, c);
      LessAsymmetric(a, c);
    }
  }

  // ---------------------------------------------------------------------------
  // The sort, as a reference definition

  /** The sort key. */
  function Key(row: Row): string {
    Get(row, "submittedAt")
  }

  predicate Sorted(s: seq<Row>) {
    forall i, j :: 0 <= i < j < |s| ==> !Less(Key(s[j]), Key(s[i]))
  }

  /** Puts `x` after every row of `s` whose key is not after its own. */
  function InsertRow(s: seq<Row>, x: Row): (r: seq<Row>)
    ensures |r| == |s| + 1
    decreases |s|
  {
    if s == [] then [x]
    else if Less(Key(x), Key(s[|s| - 1])) then InsertRow(s[..|s| - 1], x) + [s[|s| - 1]]
    else s + [x]
  }

  /** Insertion sort from the left: Python's stable sort by key. */
  function SortBySubmittedAt(s: seq<Row>): (r: seq<Row>)
    ensures |r| == |s|
    decreases |s|
  {
    if s == [] then [] else InsertRow(SortBySubmittedAt(s[..|s| - 1]), s[|s| - 1])
  }

  lemma SplitLast(s: seq<Row>)
    requires s != []
    ensures s == s[..|s| - 1] + [s[|s| - 1]]
  {
  }

  lemma {:induction false} InsertRowMultiset(s: seq<Row>, x: Row)
    ensures multiset(InsertRow(s, x)) == multiset(s) + multiset{x}
    decreases |s|
  {
    if s != [] && Less(Key(x), Key(s[|s| - 1])) {
      InsertRowMultiset(s[..|s| - 1], x);
      SplitLast(s);
    }
  }

  /** No row of `s` comes after `y`. */
  predicate NoneAfter(s: seq<Row>, y: Row) {
    forall i :: 0 <= i < |s| ==> !Less(Key(y), Key(s[i]))
  }

  lemma LessAsymmetric(a: string, b: string)
    requires Less(a, b)
    ensures !Less(b, a)
  {
    if Less(b, a) {
      LessTransitive(a, b, a);
      LessIrreflexive(a);
    }
  }

  lemma SortedAppend(t: seq<Row>, y: Row)
    requires Sorted(t) && NoneAfter(t, y)
    ensures Sorted(t + [y])
  {
  }

  lemma SortedSplit(s: seq<Row>)
    requires s != [] && Sorted(s)
    ensures Sorted(s[..|s| - 1]) && NoneAfter(s[..|s| - 1], s[|s| - 1])
  {
  }

  /** A sorted sequence ends at its latest row. */
  lemma SortedBelowLast(s: seq<Row>, x: Row)
    requires s != [] && Sorted(s) && !Less(Key(x), Key(s[|s| - 1]))
    ensures NoneAfter(s, x)
  {
    forall i | 0 <= i < |s|
      ensures !Less(Key(x), Key(s[i]))
    {
      if i < |s| - 1 {
        NotAfterTransitive(Key(s[i]), Key(s[|s| - 1]), Key(x));
      }
    }
  }

  lemma {:induction false} InsertRowNoneAfter(s: seq<Row>, x: Row, y: Row)
    requires NoneAfter(s, y) && !Less(Key(y), Key(x))
    ensures NoneAfter(InsertRow(s, x), y)
    decreases |s|
  {
    if s == [] || !Less(Key(x), Key(s[|s| - 1])) {
      InsertRowAppends(s, x);
    } else {
      var front, last := s[..|s| - 1], s[|s| - 1];
      InsertRowShifts(s, x);
      assert NoneAfter(front, y);
      InsertRowNoneAfter(front, x, y);
    }
  }

  lemma {:induction false} InsertRowSorted(s: seq<Row>, x: Row)
    requires Sorted(s)
    ensures Sorted(InsertRow(s, x))
    decreases |s|
  {
    if s == [] || !Less(Key(x), Key(s[|s| - 1])) {
      InsertRowAppends(s, x);
      if s != [] {
        SortedBelowLast(s, x);
      }
      SortedAppend(s, x);
    } else {
      var front, last := s[..|s| - 1], s[|s| - 1];
      InsertRowShifts(s, x);
      SortedSplit(s);
      InsertRowSorted(front, x);
      LessAsymmetric(Key(x), Key(last));
      InsertRowNoneAfter(front, x, last);
      SortedAppend(InsertRow(front, x), last);
    }
  }

  /** The sort's result is ordered by submission time ... */
  lemma {:induction false} SortIsSorted(s: seq<Row>)
    ensures Sorted(SortBySubmittedAt(s))
    decreases |s|
  {
    if s != [] {
      SortIsSorted(s[..|s| - 1]);
      InsertRowSorted(SortBySubmittedAt(s[..|s| - 1]), s[|s| - 1]);
    }
  }

  /** ... and holds exactly the rows it was given. */
  lemma {:induction false} SortIsPermutation(s: seq<Row>)
    ensures multiset(SortBySubmittedAt(s)) == multiset(s)
    decreases |s|
  {
    if s != [] {
      SortIsPermutation(s[..|s| - 1]);
      InsertRowMultiset(SortBySubmittedAt(s[..|s| - 1]), s[|s| - 1]);
      SplitLast(s);
    }
  }

  /** The rows with submission time `k`, in order. */
  function WithKey(s: seq<Row>, k: string): seq<Row>
    decreases |s|
  {
    if s == [] then [] else WithKey(s[..|s| - 1], k) + KeyPart(s[|s| - 1], k)
  }

  /** The one-row part of WithKey. */
  function KeyPart(x: Row, k: string): seq<Row> {
    if Key(x) == k then [x] else []
  }

  lemma {:induction false} WithKeyAppendOne(s: seq<Row>, x: Row, k: string)
    ensures WithKey(s + [x], k) == WithKey(s, k) + KeyPart(x, k)
  {
    assert (s + [x])[..|s + [x]| - 1] == s;
  }

  lemma InsertRowShifts(s: seq<Row>, x: Row)
    requires s != [] && Less(Key(x), Key(s[|s| - 1]))
    ensures InsertRow(s, x) == InsertRow(s[..|s| - 1], x) + [s[|s| - 1]]
  {
  }

  lemma InsertRowAppends(s: seq<Row>, x: Row)
    requires s == [] || !Less(Key(x), Key(s[|s| - 1]))
    ensures InsertRow(s, x) == s + [x]
  {
  }

  /** Two rows one of which is strictly earlier do not both have key `k`. */
  lemma KeyPartsCommute(x: Row, y: Row, k: string)
    requires Less(Key(x), Key(y))
    ensures KeyPart(x, k) + KeyPart(y, k) == KeyPart(y, k) + KeyPart(x, k)
  {
    if Key(x) == k && Key(y) == k {
      LessIrreflexive(k);
    }
  }

  /** One shifted row past an inserted one keeps the per-key order. */
  lemma StableShift(t: seq<Row>, front: seq<Row>, x: Row, last: Row, k: string)
    requires Less(Key(x), Key(last))
    requires WithKey(t, k) == WithKey(front, k) + KeyPart(x, k)
    ensures WithKey(t + [last], k) == WithKey(front + [last], k) + KeyPart(x, k)
  {
    var wf, px, pl := WithKey(front, k), KeyPart(x, k), KeyPart(last, k);
    WithKeyAppendOne(t, last, k);
    WithKeyAppendOne(front, last, k);
    KeyPartsCommute(x, last, k);
    calc {
      WithKey(t + [last], k);
      WithKey(t, k) + pl;
      (wf + px) + pl;
      { ConcatAssoc(wf, px, pl); }
      wf + (px + pl);
      wf + (pl + px);
      { ConcatAssoc(wf, pl, px); }
      (wf + pl) + px;
      WithKey(front + [last], k) + px;
    }
  }

  lemma ConcatAssoc(a: seq<Row>, b: seq<Row>, c: seq<Row>)
    ensures (a + b) + c == a + (b + c)
  {
  }

  lemma {:induction false} InsertRowStable(s: seq<Row>, x: Row, k: string)
    ensures WithKey(InsertRow(s, x), k) == WithKey(s, k) + KeyPart(x, k)
    decreases |s|
  {
    if s == [] || !Less(Key(x), Key(s[|s| - 1])) {
      InsertRowAppends(s, x);
      WithKeyAppendOne(s, x, k);
    } else {
      var front, last := s[..|s| - 1], s[|s| - 1];
      InsertRowShifts(s, x);
      InsertRowStable(front, x, k);
      StableShift(InsertRow(front, x), front, x, last, k);
      SplitLast(s);
    }
  }

  /** Stability: rows with equal submission times keep the order they were
      fetched in. */
  lemma {:induction false} SortIsStable(s: seq<Row>, k: string)
    ensures WithKey(SortBySubmittedAt(s), k) == WithKey(s, k)
    decreases |s|
  {
    if s != [] {
      var front, last := s[..|s| - 1], s[|s| - 1];
      SortIsStable(front, k);
      InsertRowStable(SortBySubmittedAt(front), last, k);
      WithKeyAppendOne(front, last, k);
      SplitLast(s);
    }
  }

  // ---------------------------------------------------------------------------
  // The sort in place

  /** Where the insertion stops, InsertRow puts its row. */
  lemma {:induction false} InsertRowAt(s: seq<Row>, x: Row, j: nat)
    requires j <= |s|
    requires j == 0 || !Less(Key(x), Key(s[j - 1]))
    requires forall k :: j <= k < |s| ==> Less(Key(x), Key(s[k]))
    ensures InsertRow(s, x) == s[..j] + [x] + s[j..]
    decreases |s|
  {
    if j == |s| {
      InsertRowAppends(s, x);
      assert s[..j] == s && s[j..] == [];
    } else {
      var front, last := s[..|s| - 1], s[|s| - 1];
      InsertRowShifts(s, x);
      SplitBeforeLast(s, j);
      InsertRowAt(front, x, j);
      assert s[..j] + [x] + s[j..] == front[..j] + [x] + front[j..] + [last];
    }
  }

  lemma SplitBeforeLast(s: seq<Row>, j: nat)
    requires j < |s|
    ensures forall k :: 0 <= k < |s| - 1 ==> s[..|s| - 1][k] == s[k]
    ensures s[..|s| - 1][..j] == s[..j]
    ensures s[j..] == s[..|s| - 1][j..] + [s[|s| - 1]]
  {
  }

  /** One more row of the input, inserted into the sorted prefix. */
  lemma SortStep(s: seq<Row>, i: nat)
    requires i < |s|
    ensures SortBySubmittedAt(s[..i + 1]) == InsertRow(SortBySubmittedAt(s[..i]), s[i])
  {
    assert s[..i + 1][..i] == s[..i];
  }

  /** Inserts `a[i]` into the sorted prefix `a[..i]`, shifting later rows up. */
  method InsertAt(a: array<Row>, i: nat)
    requires i < a.Length
    modifies a
    ensures a[..i + 1] == InsertRow(old(a[..i]), old(a[i]))
    ensures a[i + 1..] == old(a[i + 1..])
  {
    var x := a[i];
    ghost var s := a[..i];
    ghost var rest := a[i + 1..];
    var j := i;
    while j > 0 && Less(Key(x), Key(a[j - 1]))
      invariant 0 <= j <= i
      invariant forall k :: 0 <= k < j ==> a[k] == s[k]
      invariant forall k :: j < k <= i ==> a[k] == s[k - 1]
      invariant a[i + 1..] == rest
      invariant forall k :: j <= k < i ==> Less(Key(x), Key(s[k]))
    {
      a[j] := a[j - 1];
      j := j - 1;
    }
    a[j] := x;
    InsertRowAt(s, x, j);
    PlacedAt(a[..i + 1], s, x, j);
  }

  lemma PlacedAt(t: seq<Row>, s: seq<Row>, x: Row, j: nat)
    requires |t| == |s| + 1 && j <= |s| && t[j] == x
    requires forall k :: 0 <= k < j ==> t[k] == s[k]
    requires forall k :: j < k < |t| ==> t[k] == s[k - 1]
    ensures t == s[..j] + [x] + s[j..]
  {
  }

  /** `rows.sort(key=...)` on the list held in an array. */
  method SortRows(a: array<Row>)
    modifies a
    ensures a[..] == SortBySubmittedAt(old(a[..]))
  {
    ghost var orig := a[..];
    var i := 0;
    while i < a.Length
      invariant 0 <= i <= a.Length
      invariant a[..i] == SortBySubmittedAt(orig[..i])
      invariant a[i..] == orig[i..]
    {
      assert a[i] == orig[i] by { assert a[i..][0] == orig[i..][0]; }
      assert a[i + 1..] == orig[i + 1..] by { assert a[i + 1..] == a[i..][1..]; }
      InsertAt(a, i);
      SortStep(orig, i);
      i := i + 1;
    }
    assert orig[..a.Length] == orig;
  }
}
