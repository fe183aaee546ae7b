/** ASCII string helpers standing in for Python's `str.strip`, `str.lower`,
    `str.split`, `str.join` and the substring test `k in t`. */
module Text {

  /** The ASCII characters Python's `str.isspace` accepts: TAB, LF, VT, FF,
      CR, the four information separators 0x1C-0x1F, and SPACE. */
  predicate IsSpace(c: char) {
    9 <= c as int <= 13 || 28 <= c as int <= 32
  }

  predicate IsUpper(c: char) {
    'A' <= c <= 'Z'
  }

  function Lower(c: char): (r: char)
    ensures !IsUpper(r)
    ensures IsSpace(r) <==> IsSpace(c)
    ensures !IsUpper(c) ==> r == c
  {
    if IsUpper(c) then (c as int + 32) as char else c
  }

  function LowerStr(s: string): (r: string)
    ensures |r| == |s|
    ensures forall i :: 0 <= i < |s| ==> r[i] == Lower(s[i])
  {
    if s == [] then [] else [Lower(s[0])] + LowerStr(s[1..])
  }

  predicate IsLowerStr(s: string) {
    forall i :: 0 <= i < |s| ==> !IsUpper(s[i])
  }

  lemma LowerStrIdempotent(s: string)
    ensures LowerStr(LowerStr(s)) == LowerStr(s)
  {
  }

  lemma LowerOfLower(s: string)
    requires IsLowerStr(s)
    ensures LowerStr(s) == s
  {
  }

  lemma LowerStrAppend(a: string, b: string)
    ensures LowerStr(a + b) == LowerStr(a) + LowerStr(b)
  {
  }

  // ---------------------------------------------------------------------
  // Stripping

  /** The first index from `i` on that does not hold whitespace. */
  function SpanStart(s: string, i: nat): (r: nat)
    requires i <= |s|
    ensures i <= r <= |s|
    ensures forall k :: i <= k < r ==> IsSpace(s[k])
    ensures r < |s| ==> !IsSpace(s[r])
    decreases |s| - i
  {
    if i < |s| && IsSpace(s[i]) then SpanStart(s, i + 1) else i
  }

  /** The end of `s[lo..j]` once its trailing whitespace is dropped. */
  function SpanEnd(s: string, lo: nat, j: nat): (r: nat)
    requires lo <= j <= |s|
    ensures lo <= r <= j
    ensures forall k :: r <= k < j ==> IsSpace(s[k])
    ensures lo < r ==> !IsSpace(s[r - 1])
    decreases j
  {
    if lo < j && IsSpace(s[j - 1]) then SpanEnd(s, lo, j - 1) else j
  }

  /** Python's `s.strip()`: drop leading and trailing whitespace. */
  function Strip(s: string): (r: string)
    ensures r != [] ==> !IsSpace(r[0]) && !IsSpace(r[|r| - 1])
  {
    var a := SpanStart(s, 0);
    s[a..SpanEnd(s, a, |s|)]
  }

  /** `Strip(s)` is the slice of `s` between the leading and the trailing
      runs of whitespace. */
  lemma StripSpec(s: string)
    ensures exists a, b ::
              (0 <= a <= b <= |s| && Strip(s) == s[a..b]
               && (forall i :: 0 <= i < a ==> IsSpace(s[i]))
               && (forall i :: b <= i < |s| ==> IsSpace(s[i])))
  {
    var a := SpanStart(s, 0);
    var b := SpanEnd(s, a, |s|);
    assert Strip(s) == s[a..b];
  }

  /** Stripping leaves nothing exactly when the string is all whitespace. */
  lemma StripEmptyIff(s: string)
    ensures Strip(s) == [] <==> forall i :: 0 <= i < |s| ==> IsSpace(s[i])
  {
    StripSpec(s);
    var a, b :| 0 <= a <= b <= |s| && Strip(s) == s[a..b]
      && (forall i :: 0 <= i < a ==> IsSpace(s[i]))
      && (forall i :: b <= i < |s| ==> IsSpace(s[i]));
    if Strip(s) != [] {
      assert !IsSpace(s[a]);
    } else {
      forall i | 0 <= i < |s| ensures IsSpace(s[i]) {
        assert i < a || b <= i;
      }
    }
  }

  lemma StripNoChar(s: string, c: char)
    requires c !in s
    ensures c !in Strip(s)
  {
    StripSpec(s);
    var a, b :| 0 <= a <= b <= |s| && Strip(s) == s[a..b];
    forall i | 0 <= i < b - a ensures Strip(s)[i] != c {
      assert Strip(s)[i] == s[a + i];
    }
  }

  lemma StripOfStripped(s: string)
    requires s != [] ==> !IsSpace(s[0]) && !IsSpace(s[|s| - 1])
    ensures Strip(s) == s
  {
    assert SpanStart(s, 0) == 0;
    assert s[0..|s|] == s;
  }

  lemma {:induction false} SpanStartLower(s: string, i: nat)
    requires i <= |s|
    ensures SpanStart(LowerStr(s), i) == SpanStart(s, i)
    decreases |s| - i
  {
    if i < |s| && IsSpace(s[i]) {
      SpanStartLower(s, i + 1);
    }
  }

  lemma {:induction false} SpanEndLower(s: string, lo: nat, j: nat)
    requires lo <= j <= |s|
    ensures SpanEnd(LowerStr(s), lo, j) == SpanEnd(s, lo, j)
    decreases j
  {
    if lo < j && IsSpace(s[j - 1]) {
      SpanEndLower(s, lo, j - 1);
    }
  }

  /** Stripping and lower-casing commute (no letter is whitespace). */
  lemma StripLower(s: string)
    ensures Strip(LowerStr(s)) == LowerStr(Strip(s))
  {
    var a := SpanStart(s, 0);
    SpanStartLower(s, 0);
    var b := SpanEnd(s, a, |s|);
    SpanEndLower(s, a, |s|);
    LowerSlice(s, a, b);
  }

  lemma LowerSlice(s: string, a: nat, b: nat)
    requires a <= b <= |s|
    ensures LowerStr(s)[a..b] == LowerStr(s[a..b])
  {
    var l, r := LowerStr(s)[a..b], LowerStr(s[a..b]);
    forall k | 0 <= k < b - a ensures l[k] == r[k] {
      assert l[k] == LowerStr(s)[a + k] && s[a..b][k] == s[a + k];
    }
  }

  // ---------------------------------------------------------------------
  // Splitting and joining on a one-character separator

  /** Python's `sep.join(parts)`. */
  function Join(parts: seq<string>, sep: char): string {
    if |parts| == 0 then ""
    else if |parts| == 1 then parts[0]
    else parts[0] + [sep] + Join(parts[1..], sep)
  }

  /** Python's `s.split(sep)`: always at least one piece, none containing
      `sep`, and joining the pieces back gives `s`. */
  function Split(s: string, sep: char): (r: seq<string>)
    ensures |r| >= 1
    ensures forall i :: 0 <= i < |r| ==> sep !in r[i]
  {
    if s == [] then [""]
    else
      var rest := Split(s[1..], sep);
      if s[0] == sep then [""] + rest
      else [[s[0]] + rest[0]] + rest[1..]
  }

  lemma {:induction false} SplitJoin(s: string, sep: char)
    ensures Join(Split(s, sep), sep) == s
  {
    if s != [] {
      SplitJoin(s[1..], sep);
      var rest := Split(s[1..], sep);
      if s[0] == sep {
        assert Split(s, sep) == [""] + rest;
        assert ([""] + rest)[1..] == rest;
      } else {
        var parts := [[s[0]] + rest[0]] + rest[1..];
        assert Split(s, sep) == parts;
        if |rest| > 1 {
          assert parts[1..] == rest[1..];
          assert Join(rest, sep) == rest[0] + [sep] + Join(rest[1..], sep);
        }
        assert s == [s[0]] + s[1..];
      }
    }
  }

  lemma {:induction false} SplitNoSep(p: string, sep: char)
    requires sep !in p
    ensures Split(p, sep) == [p]
  {
    if p != [] {
      SplitNoSep(p[1..], sep);
      assert p == [p[0]] + p[1..];
    }
  }

  lemma {:induction false} SplitPiece(p: string, sep: char, tail: string)
    requires sep !in p
    ensures Split(p + [sep] + tail, sep) == [p] + Split(tail, sep)
  {
    if p == [] {
      assert p + [sep] + tail == [sep] + tail;
      assert ([sep] + tail)[1..] == tail;
    } else {
      var s := p + [sep] + tail;
      assert s[1..] == p[1..] + [sep] + tail;
      SplitPiece(p[1..], sep, tail);
      assert p == [p[0]] + p[1..];
    }
  }

  /** The converse round trip: splitting a join of separator-free pieces
      gives the pieces back. */
  lemma {:induction false} JoinSplit(parts: seq<string>, sep: char)
    requires |parts| >= 1
    requires forall i :: 0 <= i < |parts| ==> sep !in parts[i]
    ensures Split(Join(parts, sep), sep) == parts
  {
    if |parts| == 1 {
      SplitNoSep(parts[0], sep);
    } else {
      JoinSplit(parts[1..], sep);
      SplitPiece(parts[0], sep, Join(parts[1..], sep));
      assert parts == [parts[0]] + parts[1..];
    }
  }

  function MapLower(parts: seq<string>): (r: seq<string>)
    ensures |r| == |parts|
    ensures forall i :: 0 <= i < |parts| ==> r[i] == LowerStr(parts[i])
  {
    if parts == [] then [] else [LowerStr(parts[0])] + MapLower(parts[1..])
  }

  /** Lower-casing commutes with splitting on a character that no letter
      lowers to. */
  lemma {:induction false} SplitLower(s: string, sep: char)
    requires !IsUpper(sep) && !('a' <= sep <= 'z')
    ensures Split(LowerStr(s), sep) == MapLower(Split(s, sep))
  {
    if s != [] {
      assert LowerStr(s)[1..] == LowerStr(s[1..]);
      SplitLower(s[1..], sep);
      var rest := Split(s[1..], sep);
      if s[0] != sep {
        assert Lower(s[0]) != sep;
        assert LowerStr([s[0]] + rest[0]) == [Lower(s[0])] + LowerStr(rest[0]);
        assert MapLower(rest)[1..] == MapLower(rest[1..]);
      } else {
        assert MapLower([""] + rest)[1..] == MapLower(rest);
      }
    }
  }

  lemma {:induction false} JoinLower(parts: seq<string>, sep: char)
    requires !IsUpper(sep)
    ensures LowerStr(Join(parts, sep)) == Join(MapLower(parts), sep)
  {
    if |parts| > 1 {
      JoinLower(parts[1..], sep);
      LowerStrAppend(parts[0] + [sep], Join(parts[1..], sep));
      LowerStrAppend(parts[0], [sep]);
      assert MapLower(parts)[1..] == MapLower(parts[1..]);
    }
  }

  // ---------------------------------------------------------------------
  // Substrings

  predicate IsPrefix(k: string, t: string) {
    |k| <= |t| && t[..|k|] == k
  }

  /** `k` occurs in `t` starting at position `i`. */
  predicate OccursAt(t: string, k: string, i: int) {
    0 <= i && i + |k| <= |t| && t[i..i + |k|] == k
  }

  /** Python's `k in t`. */
  predicate Contains(t: string, k: string)
    decreases |t|
  {
    IsPrefix(k, t) || (|t| > 0 && Contains(t[1..], k))
  }

  /** `Contains` is exactly "occurs at some position". */
  lemma {:induction false} ContainsIff(t: string, k: string)
    ensures Contains(t, k) <==> exists i :: OccursAt(t, k, i)
  {
    if IsPrefix(k, t) {
      assert OccursAt(t, k, 0);
    } else if |t| > 0 {
      ContainsIff(t[1..], k);
      if Contains(t[1..], k) {
        var i :| OccursAt(t[1..], k, i);
        assert t[1..][i..i + |k|] == t[i + 1..i + 1 + |k|];
        assert OccursAt(t, k, i + 1);
      }
      if exists i :: OccursAt(t, k, i) {
        var i :| OccursAt(t, k, i);
        assert i != 0;
        assert t[1..][i - 1..i - 1 + |k|] == t[i..i + |k|];
        assert OccursAt(t[1..], k, i - 1);
      }
    }
  }

  lemma ContainsAppend(a: string, b: string, k: string)
    ensures Contains(a, k) ==> Contains(a + b, k)
    ensures Contains(b, k) ==> Contains(a + b, k)
  {
    ContainsIff(a, k);
    ContainsIff(b, k);
    ContainsIff(a + b, k);
    if Contains(a, k) {
      var i :| OccursAt(a, k, i);
      assert (a + b)[i..i + |k|] == a[i..i + |k|];
      assert OccursAt(a + b, k, i);
    }
    if Contains(b, k) {
      var i :| OccursAt(b, k, i);
      assert (a + b)[|a| + i..|a| + i + |k|] == b[i..i + |k|];
      assert OccursAt(a + b, k, |a| + i);
    }
  }

  lemma ContainsSelf(t: string)
    ensures Contains(t, t)
  {
    assert IsPrefix(t, t);
  }

  /** A non-empty keyword never occurs in the empty text. */
  lemma ContainsInEmpty(k: string)
    ensures Contains("", k) <==> k == ""
  {
  }

  /** Code-point lexicographic order: how Python compares strings, and how
      SQL orders text under a binary collation. */
  predicate LexLe(a: string, b: string)
    decreases |a|
  {
    if a == [] then true
    else if b == [] then false
    else if a[0] != b[0] then a[0] < b[0]
    else LexLe(a[1..], b[1..])
  }

  lemma {:induction false} LexLeTotal(a: string, b: string)
    ensures LexLe(a, b) || LexLe(b, a)
    decreases |a|
  {
    if a != [] && b != [] && a[0] == b[0] {
      LexLeTotal(a[1..], b[1..]);
    }
  }

  lemma {:induction false} LexLeTransitive(a: string, b: string, c: string)
    requires LexLe(a, b) && LexLe(b, c)
    ensures LexLe(a, c)
    decreases |a|
  {
    if a != [] && b != [] && c != [] && a[0] == b[0] && b[0] == c[0] {
      LexLeTransitive(a[1..], b[1..], c[1..]);
    }
  }

  lemma {:induction false} LexLeAntisymmetric(a: string, b: string)
    requires LexLe(a, b) && LexLe(b, a)
    ensures a == b
    decreases |a|
  {
    if a != [] && b != [] {
      LexLeAntisymmetric(a[1..], b[1..]);
    }
  }

  /** A proper prefix sorts first. */
  lemma {:induction false} PrefixFirst(a: string, b: string)
    ensures LexLe(a, a + b)
    decreases |a|
  {
    if a != [] {
      assert (a + b)[1..] == a[1..] + b;
      PrefixFirst(a[1..], b);
    }
  }
}
