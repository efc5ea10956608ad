/** Go's `sort.Slice` and `sort.Strings`: a sorted permutation, equal keys in any order. */
module Sorting {
  import opened Text

  ghost predicate SortedBy<T>(s: seq<T>, key: T -> string) {
    forall i, j :: 0 <= i < j < |s| ==> !Less(key(s[j]), key(s[i]))
  }

  /** Sorted by a key is ascending in it: no later key precedes an earlier one. */
  lemma SortedByIff<T>(s: seq<T>, key: T -> string)
    ensures SortedBy(s, key) <==> forall i, j :: 0 <= i < j < |s| ==> !Precedes(key(s[j]), key(s[i]))
  {
    forall i, j | 0 <= i < j < |s| ensures Less(key(s[j]), key(s[i])) <==> Precedes(key(s[j]), key(s[i])) {
      LessIff(key(s[j]), key(s[i]));
    }
  }

  /** Inserting before the first element that is not smaller. */
  function InsertBy<T>(s: seq<T>, x: T, key: T -> string): seq<T> {
    if s == [] || !Less(key(s[0]), key(x)) then [x] + s else [s[0]] + InsertBy(s[1..], x, key)
  }

  lemma {:induction false} InsertByPermutes<T>(s: seq<T>, x: T, key: T -> string)
    ensures multiset(InsertBy(s, x, key)) == multiset(s) + multiset{x}
  {
    if s != [] && Less(key(s[0]), key(x)) {
      InsertByPermutes(s[1..], x, key);
      assert s == [s[0]] + s[1..];
    }
  }

  lemma {:induction false} NotLessTransitive(a: string, b: string, c: string)
    requires !Less(b, a) && !Less(c, b)
    ensures !Less(c, a)
  {
    LessTotal(a, b);
    LessTotal(b, c);
    if Less(c, a) {
      if Less(a, b) { LessTransitive(c, a, b); }
    }
  }

  lemma {:induction false} InsertBySorts<T>(s: seq<T>, x: T, key: T -> string)
    requires SortedBy(s, key)
    ensures SortedBy(InsertBy(s, x, key), key)
  {
    if s == [] {
    } else if Less(key(s[0]), key(x)) {
      var rest := InsertBy(s[1..], x, key);
      InsertBySorts(s[1..], x, key);
      InsertByPermutes(s[1..], x, key);
      LessAsymmetric(key(s[0]), key(x));
      forall j | 0 <= j < |rest| ensures !Less(key(rest[j]), key(s[0])) {
        assert rest[j] in multiset(rest);
        assert rest[j] == x || rest[j] in s[1..];
      }
    } else {
      forall j | 0 <= j < |s| ensures !Less(key(s[j]), key(x)) {
        if j > 0 { NotLessTransitive(key(x), key(s[0]), key(s[j])); }
      }
    }
  }

  method SortSlice<T>(s: seq<T>, key: T -> string) returns (out: seq<T>)
    ensures multiset(out) == multiset(s)
    ensures SortedBy(out, key)
  {
    out := [];
    for i := 0 to |s|
      invariant multiset(out) == multiset(s[..i])
      invariant SortedBy(out, key)
    {
      InsertByPermutes(out, s[i], key);
      InsertBySorts(out, s[i], key);
      assert s[..i + 1] == s[..i] + [s[i]];
      out := InsertBy(out, s[i], key);
    }
    assert s[..|s|] == s;
  }

  /** Sorting strings that are all different sorts them strictly. */
  lemma DistinctSortsStrictly(s: seq<string>, out: seq<string>)
    requires multiset(out) == multiset(s) && SortedBy(out, (x: string) => x)
    requires forall i, j :: 0 <= i < j < |s| ==> s[i] != s[j]
    ensures StrictlySorted(out)
    ensures forall x :: x in out <==> x in s
  {
    SameElements(out, s);
    DistinctMultiset(s);
    forall i, j | 0 <= i < j < |out| ensures Less(out[i], out[j]) {
      LessTotal(out[i], out[j]);
      if out[i] == out[j] {
        TwiceInMultiset(out, i, j);
      }
      assert !Less(((x: string) => x)(out[j]), ((x: string) => x)(out[i]));
    }
  }

  lemma SameElements<T>(a: seq<T>, b: seq<T>)
    requires multiset(a) == multiset(b)
    ensures forall x :: x in a <==> x in b
  {
    assert forall x :: x in a <==> x in multiset(a);
    assert forall x :: x in b <==> x in multiset(b);
  }

  lemma {:induction false} DistinctMultiset<T>(s: seq<T>)
    requires forall i, j :: 0 <= i < j < |s| ==> s[i] != s[j]
    ensures forall x :: multiset(s)[x] <= 1
  {
    if s != [] {
      DistinctMultiset(s[1..]);
      assert s == [s[0]] + s[1..];
      assert s[0] !in s[1..];
      assert s[0] !in multiset(s[1..]);
    }
  }

  lemma TwiceInMultiset<T>(s: seq<T>, i: nat, j: nat)
    requires i < j < |s| && s[i] == s[j]
    ensures multiset(s)[s[i]] >= 2
  {
    assert s == s[..j] + [s[j]] + s[j + 1..];
    assert s[i] in multiset(s[..j]) by { assert s[..j][i] == s[i]; }
  }
}
