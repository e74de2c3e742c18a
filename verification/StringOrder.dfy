/** Sorting and deduplicating account names, as `Vec::sort` and `Vec::dedup` do. */
module StringOrder {
  /** Lexicographic order, character by character. */
  predicate AtMost(a: string, b: string) {
    a == "" || (b != "" && (a[0] < b[0] || (a[0] == b[0] && AtMost(a[1..], b[1..]))))
  }

  lemma {:induction false} Total(a: string, b: string)
    ensures AtMost(a, b) || AtMost(b, a)
    ensures AtMost(a, b) && AtMost(b, a) ==> a == b
  {
    if a != "" && b != "" {
      Total(a[1..], b[1..]);
      assert a == [a[0]] + a[1..] && b == [b[0]] + b[1..];
    }
  }

  lemma {:induction false} Transitive(a: string, b: string, c: string)
    requires AtMost(a, b) && AtMost(b, c)
    ensures AtMost(a, c)
  {
    if a != "" && a[0] == b[0] == c[0] { Transitive(a[1..], b[1..], c[1..]); }
  }

  ghost predicate IsSorted(s: seq<string>) {
    forall i, j :: 0 <= i < j < |s| ==> AtMost(s[i], s[j])
  }

  ghost predicate NoDuplicates<T>(s: seq<T>) {
    forall i, j :: 0 <= i < j < |s| ==> s[i] != s[j]
  }

  function Insert(x: string, s: seq<string>): seq<string> {
    if |s| == 0 then [x]
    else if AtMost(x, s[0]) then [x] + s
    else [s[0]] + Insert(x, s[1..])
  }

  function Sort(s: seq<string>): seq<string> {
    if |s| == 0 then [] else Insert(s[0], Sort(s[1..]))
  }

  /** Drops an element equal to the one before it. */
  function Dedup(s: seq<string>): seq<string> {
    if |s| < 2 then s
    else if s[0] == s[1] then Dedup(s[1..])
    else [s[0]] + Dedup(s[1..])
  }

  lemma {:induction false} InsertSorted(x: string, s: seq<string>)
    requires IsSorted(s)
    ensures IsSorted(Insert(x, s))
    ensures forall y :: y in Insert(x, s) <==> y == x || y in s
    ensures NoDuplicates(s) && x !in s ==> NoDuplicates(Insert(x, s))
  {
    if |s| > 0 {
      Total(x, s[0]);
      if AtMost(x, s[0]) {
        forall j | 0 < j < |s| ensures AtMost(x, s[j]) { Transitive(x, s[0], s[j]); }
      } else {
        InsertSorted(x, s[1..]);
        assert forall y :: y in s <==> y == s[0] || y in s[1..];
        var rest := Insert(x, s[1..]);
        forall j | 0 <= j < |rest| ensures AtMost(s[0], rest[j]) {
          assert rest[j] in rest;
        }
        assert NoDuplicates(s) && x !in s ==> s[0] !in rest;
      }
    }
  }

  lemma {:induction false} SortSorts(s: seq<string>)
    ensures IsSorted(Sort(s))
    ensures forall y :: y in Sort(s) <==> y in s
  {
    if |s| > 0 {
      SortSorts(s[1..]);
      InsertSorted(s[0], Sort(s[1..]));
      assert forall y :: y in s <==> y == s[0] || y in s[1..];
    }
  }

  /** On a sorted list, dropping equal neighbours drops every duplicate. */
  lemma {:induction false} DedupSorted(s: seq<string>)
    requires IsSorted(s)
    ensures IsSorted(Dedup(s)) && NoDuplicates(Dedup(s))
    ensures forall y :: y in Dedup(s) <==> y in s
  {
    if |s| >= 2 {
      DedupSorted(s[1..]);
      assert forall y :: y in s <==> y == s[0] || y in s[1..];
      var rest := Dedup(s[1..]);
      if s[0] != s[1] {
        forall j | 0 <= j < |rest| ensures AtMost(s[0], rest[j]) && s[0] != rest[j] {
          assert rest[j] in s[1..];
          var k :| 1 <= k < |s| && s[k] == rest[j];
          if k > 1 { Total(s[0], s[1]); assert AtMost(s[1], s[k]) && AtMost(s[0], s[1]); }
        }
      } else {
        assert s[1] in s[1..];
      }
    }
  }

  /** `sort` then `dedup`. */
  function SortDedup(s: seq<string>): seq<string> {
    Dedup(Sort(s))
  }

  lemma SortDedupIs(s: seq<string>)
    ensures IsSorted(SortDedup(s)) && NoDuplicates(SortDedup(s))
    ensures forall y :: y in SortDedup(s) <==> y in s
  {
    SortSorts(s);
    DedupSorted(Sort(s));
  }
}
