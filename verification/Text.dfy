/** The string operations of Go's `strings` package that the gateway relies on,
    over sequences of Unicode characters. */
module Text {

  /** The characters of Unicode's White_Space property, as tested by `unicode.IsSpace`. */
  predicate IsSpace(c: char) {
    || '\t' <= c <= '\r'
    || c == ' '
    || c == '\U{85}'
    || c == '\U{A0}'
    || c == '\U{1680}'
    || '\U{2000}' <= c <= '\U{200A}'
    || '\U{2028}' <= c <= '\U{2029}'
    || c == '\U{202F}'
    || c == '\U{205F}'
    || c == '\U{3000}'
  }

  /** The 25 code points of the property. */
  lemma WhiteSpaceIs(c: char)
    ensures IsSpace(c) <==>
              c as int in {0x9, 0xA, 0xB, 0xC, 0xD, 0x20, 0x85, 0xA0, 0x1680, 0x2000, 0x2001, 0x2002, 0x2003, 0x2004,
                           0x2005, 0x2006, 0x2007, 0x2008, 0x2009, 0x200A, 0x2028, 0x2029, 0x202F, 0x205F, 0x3000}
  {
  }

  predicate AllSpace(s: string) {
    forall i :: 0 <= i < |s| ==> IsSpace(s[i])
  }

  /** No white space at either end. */
  predicate Trimmed(s: string) {
    s != "" ==> !IsSpace(s[0]) && !IsSpace(s[|s| - 1])
  }

  /** Trimmed and not blank: what the gateway accepts as an identifier. */
  predicate Clean(s: string) {
    s != "" && Trimmed(s)
  }

  function TrimLeft(s: string): string {
    if s != "" && IsSpace(s[0]) then TrimLeft(s[1..]) else s
  }

  function TrimRight(s: string): string {
    if s != "" && IsSpace(s[|s| - 1]) then TrimRight(s[..|s| - 1]) else s
  }

  function TrimSpace(s: string): string {
    TrimRight(TrimLeft(s))
  }

  lemma {:induction false} TrimLeftDrops(s: string)
    ensures |TrimLeft(s)| <= |s|
    ensures TrimLeft(s) == s[|s| - |TrimLeft(s)|..]
    ensures AllSpace(s[..|s| - |TrimLeft(s)|])
    ensures TrimLeft(s) != "" ==> !IsSpace(TrimLeft(s)[0])
  {
    if s != "" && IsSpace(s[0]) {
      TrimLeftDrops(s[1..]);
      var n := |s| - |TrimLeft(s)|;
      assert s[1..][..n - 1] == s[1..n];
      assert s[..n] == [s[0]] + s[1..n];
    }
  }

  lemma {:induction false} TrimRightDrops(s: string)
    ensures |TrimRight(s)| <= |s|
    ensures TrimRight(s) == s[..|TrimRight(s)|]
    ensures AllSpace(s[|TrimRight(s)|..])
    ensures TrimRight(s) != "" ==> !IsSpace(TrimRight(s)[|TrimRight(s)| - 1])
  {
    if s != "" && IsSpace(s[|s| - 1]) {
      TrimRightDrops(s[..|s| - 1]);
      var n := |TrimRight(s)|;
      assert s[n..] == s[..|s| - 1][n..] + [s[|s| - 1]];
    }
  }

  /** The text between the white space at both ends is kept, and nothing else. */
  lemma TrimSpaceSplits(s: string) returns (left: string, right: string)
    ensures s == left + TrimSpace(s) + right
    ensures AllSpace(left) && AllSpace(right)
    ensures Trimmed(TrimSpace(s))
  {
    TrimLeftDrops(s);
    var t := TrimLeft(s);
    TrimRightDrops(t);
    left, right := s[..|s| - |t|], t[|TrimRight(t)|..];
  }

  lemma TrimSpaceTrims(s: string)
    ensures Trimmed(TrimSpace(s))
    ensures Trimmed(s) ==> TrimSpace(s) == s
  {
    var _, _ := TrimSpaceSplits(s);
  }

  lemma BlankIffAllSpace(s: string)
    ensures TrimSpace(s) == "" <==> AllSpace(s)
  {
    var left, right := TrimSpaceSplits(s);
    if TrimSpace(s) != "" {
      assert s[|left|] == TrimSpace(s)[0];
    } else {
      assert forall i :: 0 <= i < |s| ==> s[i] == if i < |left| then left[i] else right[i - |left|];
    }
  }

  /** `TrimSpace` forgets exactly the padding: it is determined by the core it keeps. */
  lemma TrimSpaceUnique(left: string, core: string, right: string)
    requires AllSpace(left) && AllSpace(right) && Trimmed(core)
    ensures TrimSpace(left + core + right) == core
  {
    TrimLeftPadded(left, core + right);
    assert left + core + right == left + (core + right);
    if core == "" {
      assert core + right == right;
      TrimLeftPadded(right, "");
      assert right + "" == right;
    } else {
      TrimRightPadded(core, right);
    }
  }

  lemma {:induction false} TrimLeftPadded(left: string, s: string)
    requires AllSpace(left)
    ensures TrimLeft(left + s) == TrimLeft(s)
  {
    if left == "" {
      assert left + s == s;
    } else {
      assert (left + s)[1..] == left[1..] + s;
      TrimLeftPadded(left[1..], s);
    }
  }

  lemma {:induction false} TrimRightPadded(s: string, right: string)
    requires AllSpace(right)
    ensures TrimRight(s + right) == TrimRight(s)
  {
    if right == "" {
      assert s + right == s;
    } else {
      assert (s + right)[..|s + right| - 1] == s + right[..|right| - 1];
      TrimRightPadded(s, right[..|right| - 1]);
    }
  }

  /** Go's `<` on strings. UTF-8 keeps code point order, so comparing characters agrees
      with comparing bytes. */
  predicate Less(a: string, b: string) {
    b != "" && (a == "" || a[0] < b[0] || (a[0] == b[0] && Less(a[1..], b[1..])))
  }

  /** Ascending lexicographic order: a proper prefix, or the smaller character at the first
      difference. */
  ghost predicate Precedes(a: string, b: string) {
    || (|a| < |b| && a == b[..|a|])
    || exists i :: DiffersAt(a, b, i)
  }

  /** The texts agree up to `i`, and there `a` has the smaller character. */
  predicate DiffersAt(a: string, b: string, i: int) {
    0 <= i < |a| && i < |b| && a[..i] == b[..i] && a[i] < b[i]
  }

  lemma {:induction false} LessIff(a: string, b: string)
    ensures Less(a, b) <==> Precedes(a, b)
  {
    if a == "" || b == "" || a[0] != b[0] {
      PrecedesHead(a, b);
    } else {
      LessIff(a[1..], b[1..]);
      PrecedesTail(a, b);
    }
  }

  lemma PrecedesHead(a: string, b: string)
    requires a == "" || b == "" || a[0] != b[0]
    ensures Precedes(a, b) <==> b != "" && (a == "" || a[0] < b[0])
  {
    forall i | 0 < i < |a| && i < |b| ensures !DiffersAt(a, b, i) {
      assert a[..i][0] == a[0] && b[..i][0] == b[0];
    }
    if 0 < |a| < |b| { assert b[..|a|][0] == b[0]; }
    if a != "" && b != "" {
      assert a[..0] == b[..0];
      assert DiffersAt(a, b, 0) <==> a[0] < b[0];
    }
  }

  lemma PrecedesTail(a: string, b: string)
    requires a != "" && b != "" && a[0] == b[0]
    ensures Precedes(a, b) <==> Precedes(a[1..], b[1..])
  {
    assert a == [a[0]] + a[1..] && b == [b[0]] + b[1..];
    if |a| < |b| {
      assert b[..|a|] == [b[0]] + b[1..][..|a[1..]|];
      assert b[..|a|][1..] == b[1..][..|a[1..]|];
    }
    if i :| DiffersAt(a[1..], b[1..], i) {
      DiffersAtTail(a, b, i);
    }
    if i :| DiffersAt(a, b, i) {
      NotAtZero(a, b, i);
      DiffersAtTail(a, b, i - 1);
    }
  }

  lemma DiffersAtTail(a: string, b: string, i: int)
    requires a != "" && b != "" && a[0] == b[0]
    ensures DiffersAt(a, b, i + 1) <==> DiffersAt(a[1..], b[1..], i)
  {
    if 0 <= i < |a| - 1 && i < |b| - 1 {
      assert a[..i + 1] == [a[0]] + a[1..][..i] && b[..i + 1] == [b[0]] + b[1..][..i];
      assert a[..i + 1][1..] == a[1..][..i] && b[..i + 1][1..] == b[1..][..i];
    } else if i == -1 {
      assert !DiffersAt(a, b, 0);
    }
  }

  lemma NotAtZero(a: string, b: string, i: int)
    requires DiffersAt(a, b, i) && a[0] == b[0]
    ensures i > 0
  {
  }

  lemma {:induction false} LessTotal(a: string, b: string)
    ensures a == b || Less(a, b) || Less(b, a)
  {
    if a != "" && b != "" && a[0] == b[0] {
      LessTotal(a[1..], b[1..]);
      assert a == [a[0]] + a[1..] && b == [b[0]] + b[1..];
    }
  }

  lemma {:induction false} LessAsymmetric(a: string, b: string)
    requires Less(a, b)
    ensures !Less(b, a) && a != b
  {
    if a != "" && a[0] == b[0] {
      LessAsymmetric(a[1..], b[1..]);
    }
  }

  lemma {:induction false} LessTransitive(a: string, b: string, c: string)
    requires Less(a, b) && Less(b, c)
    ensures Less(a, c)
  {
    if a != "" && a[0] == b[0] == c[0] {
      LessTransitive(a[1..], b[1..], c[1..]);
    }
  }

  /** What `compactStrings` promises: every value trimmed, the blank ones dropped, order kept. */
  function Compact(values: seq<string>): seq<string> {
    if values == [] then []
    else (if TrimSpace(values[0]) != "" then [TrimSpace(values[0])] else []) + Compact(values[1..])
  }

  lemma {:induction false} CompactAppend(a: seq<string>, b: seq<string>)
    ensures Compact(a + b) == Compact(a) + Compact(b)
  {
    if a == [] {
      assert a + b == b;
    } else {
      assert (a + b)[1..] == a[1..] + b;
      CompactAppend(a[1..], b);
    }
  }

  /** The loop behind both `compactStrings` functions of the gateway. */
  method CompactStrings(values: seq<string>) returns (out: seq<string>)
    ensures out == Compact(values)
  {
    out := [];
    for i := 0 to |values|
      invariant out == Compact(values[..i])
    {
      var value := TrimSpace(values[i]);
      CompactAppend(values[..i], [values[i]]);
      assert values[..i + 1] == values[..i] + [values[i]];
      if value != "" {
        out := out + [value];
      }
    }
    assert values[..|values|] == values;
  }

  /** Compacted lists hold clean strings only, and exactly those some value trims to. */
  lemma {:induction false} CompactMembers(values: seq<string>, v: string)
    ensures v in Compact(values) <==> v != "" && exists i :: 0 <= i < |values| && TrimSpace(values[i]) == v
    ensures v in Compact(values) ==> Clean(v)
  {
    if values != [] {
      CompactMembers(values[1..], v);
      TrimSpaceTrims(values[0]);
      assert forall i :: 1 <= i < |values| ==> values[i] == values[1..][i - 1];
      if v in Compact(values[1..]) {
        var i :| 0 <= i < |values[1..]| && TrimSpace(values[1..][i]) == v;
        assert TrimSpace(values[i + 1]) == v;
      }
    }
  }

  lemma {:induction false} CompactClean(values: seq<string>)
    requires forall i :: 0 <= i < |values| ==> Clean(values[i])
    ensures Compact(values) == values
  {
    if values != [] {
      TrimSpaceTrims(values[0]);
      assert forall i :: 0 <= i < |values[1..]| ==> values[1..][i] == values[i + 1];
      CompactClean(values[1..]);
      assert values == [values[0]] + values[1..];
    }
  }

  /** Compacting twice is compacting once. */
  lemma {:induction false} CompactIdempotent(values: seq<string>)
    ensures Compact(Compact(values)) == Compact(values)
  {
    forall i | 0 <= i < |Compact(values)|
      ensures Clean(Compact(values)[i])
    {
      CompactMembers(values, Compact(values)[i]);
    }
    CompactClean(Compact(values));
  }

  predicate StrictlySorted(s: seq<string>) {
    forall i, j :: 0 <= i < j < |s| ==> Less(s[i], s[j])
  }

  /** Strictly sorted is ascending, without repetitions. */
  lemma StrictlySortedIff(s: seq<string>)
    ensures StrictlySorted(s) <==> forall i, j :: 0 <= i < j < |s| ==> Precedes(s[i], s[j])
  {
    forall i, j | 0 <= i < j < |s| ensures Less(s[i], s[j]) <==> Precedes(s[i], s[j]) {
      LessIff(s[i], s[j]);
    }
  }

  /** The position of the first `c` in `s`, or `|s|`. */
  function Find(s: string, c: char): (i: nat)
    ensures i <= |s|
    ensures forall k :: 0 <= k < i ==> s[k] != c
    ensures i < |s| ==> s[i] == c
  {
    if s == "" || s[0] == c then 0 else
      var i := 1 + Find(s[1..], c);
      assert forall k :: 1 <= k < i ==> s[k] == s[1..][k - 1];
      i
  }

  /** A separator that does not occur before it marks the only split point. */
  lemma CutUnique(a: string, sep: char, x: string, b: string, y: string)
    requires sep !in a && sep !in b
    requires a + [sep] + x == b + [sep] + y
    ensures a == b && x == y
  {
    var s, t := a + [sep] + x, b + [sep] + y;
    assert s[|a|] == sep && t[|b|] == sep;
    assert forall i :: 0 <= i < |a| ==> s[i] == a[i] != sep;
    assert forall i :: 0 <= i < |b| ==> t[i] == b[i] != sep;
    assert |a| == |b|;
    assert a == s[..|a|] && b == t[..|b|];
    assert x == s[|a| + 1..] && y == t[|b| + 1..];
  }
}
