/** String order and the default array sort. JavaScript's `sort()` without a
    comparator orders strings by their code units; this model orders them
    lexicographically by `char`, a proper prefix coming first. */
module Order {
  import opened Seqs

  /** Strict lexicographic order on strings. */
  predicate Less(a: string, b: string)
    decreases |a|
  {
    if a == [] then b != []
    else if b == [] then false
    else a[0] < b[0] || (a[0] == b[0] && Less(a[1..], b[1..]))
  }

  /** Every element is strictly below every later one. */
  predicate Ascending(s: seq<string>) {
    forall i, j :: 0 <= i < j < |s| ==> Less(s[i], s[j])
  }

  /** Inserts `x` before the first element that is not below it. */
  function Insert(x: string, s: seq<string>): seq<string> {
    if s == [] then [x]
    else if Less(s[0], x) then [s[0]] + Insert(x, s[1..])
    else [x] + s
  }

  /** Insertion sort: the ascending arrangement of `s`. */
  function Sort(s: seq<string>): seq<string> {
    if s == [] then [] else Insert(s[0], Sort(s[1..]))
  }

  // ---------------------------------------------------------------------
  // Less is a strict total order

  lemma {:induction false} LessIrreflexive(a: string)
    ensures !Less(a, a)
  {
    if a != [] {
      LessIrreflexive(a[1..]);
    }
  }

  lemma {:induction false} LessTransitive(a: string, b: string, c: string)
    requires Less(a, b) && Less(b, c)
    ensures Less(a, c)
  {
    if a != [] && a[0] == b[0] && b[0] == c[0] {
      LessTransitive(a[1..], b[1..], c[1..]);
    }
  }

  lemma {:induction false} LessTotal(a: string, b: string)
    requires a != b
    ensures Less(a, b) || Less(b, a)
  {
    if a != [] && b != [] && a[0] == b[0] {
      assert a == [a[0]] + a[1..] && b == [b[0]] + b[1..];
      LessTotal(a[1..], b[1..]);
    }
  }

  lemma LessAsymmetric(a: string, b: string)
    requires Less(a, b)
    ensures !Less(b, a)
  {
    if Less(b, a) {
      LessTransitive(a, b, a);
      LessIrreflexive(a);
    }
  }

  /** Ascending neighbours make an ascending sequence. */
  lemma {:induction false} AscendingFromNeighbours(s: seq<string>)
    requires forall i :: 0 <= i < |s| - 1 ==> Less(s[i], s[i + 1])
    ensures Ascending(s)
  {
    if s != [] {
      AscendingFromNeighbours(s[1..]);
      forall j | 0 < j < |s| ensures Less(s[0], s[j]) {
        if j > 1 {
          assert Less(s[1..][0], s[1..][j - 1]);
          LessTransitive(s[0], s[1], s[j]);
        }
      }
    }
  }

  // ---------------------------------------------------------------------
  // Sort

  lemma {:induction false} InsertSpec(x: string, s: seq<string>)
    ensures multiset(Insert(x, s)) == multiset(s) + multiset{x}
    ensures forall y :: y in Insert(x, s) <==> y == x || y in s
  {
    if s != [] && Less(s[0], x) {
      InsertSpec(x, s[1..]);
      assert s == [s[0]] + s[1..];
    }
  }

  /** Inserting a new element into an ascending sequence keeps it ascending. */
  lemma {:induction false} InsertAscending(x: string, s: seq<string>)
    requires Ascending(s) && x !in s
    ensures Ascending(Insert(x, s))
  {
    if s != [] {
      if Less(s[0], x) {
        InsertAscending(x, s[1..]);
        InsertSpec(x, s[1..]);
        var r := Insert(x, s);
        forall i, j | 0 <= i < j < |r| ensures Less(r[i], r[j]) {
          if i == 0 {
            assert r[j] in Insert(x, s[1..]);
          }
        }
      } else {
        LessTotal(x, s[0]);
        forall j | 0 < j < |s| ensures Less(x, s[j]) {
          LessTransitive(x, s[0], s[j]);
        }
      }
    }
  }

  /** Sorting distinct strings gives an ascending permutation of them. */
  lemma {:induction false} SortSpec(s: seq<string>)
    requires NoDup(s)
    ensures Ascending(Sort(s))
    ensures multiset(Sort(s)) == multiset(s)
  {
    if s != [] {
      assert s == [s[0]] + s[1..];
      assert NoDup(s[1..]);
      SortSpec(s[1..]);
      InsertSpec(s[0], Sort(s[1..]));
      assert s[0] !in multiset(s[1..]);
      InsertAscending(s[0], Sort(s[1..]));
    }
  }

  /** An ascending sequence is determined by its members. */
  lemma {:induction false} AscendingUnique(a: seq<string>, b: seq<string>)
    requires Ascending(a) && Ascending(b)
    requires forall x :: x in a <==> x in b
    ensures a == b
  {
    if a != [] {
      assert a[0] in b;
    }
    if b != [] {
      assert b[0] in a;
    }
    if a != [] && b != [] {
      if a[0] != b[0] {
        assert a[0] in b && b[0] in a;
        var i :| 0 <= i < |b| && b[i] == a[0];
        var j :| 0 <= j < |a| && a[j] == b[0];
        assert Less(b[0], a[0]) && Less(a[0], b[0]);
        LessAsymmetric(a[0], b[0]);
      }
      assert a == [a[0]] + a[1..] && b == [b[0]] + b[1..];
      forall x ensures x in a[1..] <==> x in b[1..] {
        if x in a[1..] {
          var i :| 0 <= i < |a[1..]| && a[1..][i] == x;
          assert Less(a[0], a[i + 1]);
          LessIrreflexive(x);
          assert x in b && x != b[0];
        }
        if x in b[1..] {
          var i :| 0 <= i < |b[1..]| && b[1..][i] == x;
          assert Less(b[0], b[i + 1]);
          LessIrreflexive(x);
          assert x in a && x != a[0];
        }
      }
      AscendingUnique(a[1..], b[1..]);
    }
  }
}
