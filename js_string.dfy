/**
 * The JavaScript string built-ins the application relies on: `trim`,
 * `startsWith`, `endsWith`, `includes`, `toLowerCase` and `Array.join`.
 */
module JsString {

  /**
   * The characters `String.prototype.trim` removes: ECMAScript's WhiteSpace
   * (tab, vertical tab, form feed, space, no-break space, byte-order mark and
   * the Space_Separator category) and LineTerminator (LF, CR, LS, PS).
   */
  predicate IsWhitespace(c: char)
    ensures IsWhitespace(c) ==> !('0' <= c <= '9' || 'A' <= c <= 'Z' || 'a' <= c <= 'z')
    ensures IsWhitespace(c) ==> c != '`' && c != '{' && c != '[' && c != '}' && c != ']' && c != '"' && c != '-'
  {
    || c == '\t' || c == '\n' || c == '\U{B}' || c == '\U{C}' || c == '\r' || c == ' '
    || c == '\U{A0}' || c == '\U{1680}' || ('\U{2000}' <= c <= '\U{200A}')
    || c == '\U{2028}' || c == '\U{2029}' || c == '\U{202F}' || c == '\U{205F}'
    || c == '\U{3000}' || c == '\U{FEFF}'
  }

  /** No whitespace at either end: what `trim` guarantees of its result. */
  predicate IsTrimmed(s: string)
  {
    s == [] || (!IsWhitespace(s[0]) && !IsWhitespace(s[|s| - 1]))
  }

  /** `r` is the contiguous piece `s[i..j]` of `s` for some bounds. */
  ghost predicate IsSlice(r: string, s: string)
  {
    exists i, j :: 0 <= i <= j <= |s| && r == s[i..j]
  }

  /** A slice of a slice is a slice of the original. */
  lemma SliceOfSlice(s: string, i: nat, k: nat, a: nat, b: nat)
    requires i <= k <= |s| && a <= b <= k - i
    ensures s[i..k][a..b] == s[i + a..i + b]
  {
    var x, y := s[i..k][a..b], s[i + a..i + b];
    assert |x| == b - a == |y|;
    forall t | 0 <= t < b - a ensures x[t] == y[t] {
      assert x[t] == s[i..k][a + t] == s[i + a + t];
    }
  }

  /** A piece of a piece of `s` is a piece of `s`, at the summed offset. */
  lemma SliceWithin(s: string, t: string, u: string, i: nat, lo: nat, hi: nat)
    requires i + |t| <= |s| && t == s[i..i + |t|]
    requires lo <= hi <= |t| && u == t[lo..hi]
    ensures u == s[i + lo..i + hi]
  {
    SliceOfSlice(s, i, i + |t|, lo, hi);
  }

  /** The first index at or after `i` that does not hold whitespace, or `|s|`. */
  function SkipWhitespace(s: string, i: nat): (k: nat)
    requires i <= |s|
    ensures i <= k <= |s|
    ensures forall m :: i <= m < k ==> IsWhitespace(s[m])
    ensures k == |s| || !IsWhitespace(s[k])
    decreases |s| - i
  {
    if i < |s| && IsWhitespace(s[i]) then SkipWhitespace(s, i + 1) else i
  }

  /** Walking back from `j`, not below `lo`: one past the last index not holding whitespace. */
  function SkipWhitespaceBack(s: string, lo: nat, j: nat): (k: nat)
    requires lo <= j <= |s|
    ensures lo <= k <= j
    ensures forall m :: k <= m < j ==> IsWhitespace(s[m])
    ensures k == lo || !IsWhitespace(s[k - 1])
    decreases j
  {
    if j > lo && IsWhitespace(s[j - 1]) then SkipWhitespaceBack(s, lo, j - 1) else j
  }

  /** Where `trim`'s result starts within its argument. */
  function TrimStartIndex(s: string): nat
  {
    SkipWhitespace(s, 0)
  }

  /** Where `trim`'s result ends within its argument. */
  function TrimEndIndex(s: string): (k: nat)
    ensures TrimStartIndex(s) <= k <= |s|
  {
    SkipWhitespaceBack(s, TrimStartIndex(s), |s|)
  }

  /** `String.prototype.trim`: the piece between leading and trailing whitespace. */
  function Trim(s: string): (r: string)
    ensures IsTrimmed(r)
    ensures |r| <= |s|
  {
    s[TrimStartIndex(s)..TrimEndIndex(s)]
  }

  /** Every character `trim` removes is whitespace, so its result is the largest trimmed piece. */
  lemma TrimRemovesOnlyWhitespace(s: string)
    ensures Trim(s) == s[TrimStartIndex(s)..TrimEndIndex(s)]
    ensures forall k :: 0 <= k < TrimStartIndex(s) ==> IsWhitespace(s[k])
    ensures forall k :: TrimEndIndex(s) <= k < |s| ==> IsWhitespace(s[k])
  {
  }

  /** `trim`'s result sits in its argument from `TrimStartIndex` on. */
  lemma TrimIsPiece(s: string)
    ensures TrimStartIndex(s) + |Trim(s)| <= |s|
    ensures Trim(s) == s[TrimStartIndex(s)..TrimStartIndex(s) + |Trim(s)|]
  {
  }

  /** Trimming a piece of `s` gives a piece of `s`. */
  lemma TrimWithin(s: string, u: string, a: nat)
    requires a + |u| <= |s| && u == s[a..a + |u|]
    ensures Trim(u) == s[a + TrimStartIndex(u)..a + TrimEndIndex(u)]
  {
    SliceWithin(s, u, Trim(u), a, TrimStartIndex(u), TrimEndIndex(u));
  }

  /** Trimming a string that has no whitespace at either end leaves it alone. */
  lemma TrimOfTrimmed(s: string)
    requires IsTrimmed(s)
    ensures Trim(s) == s
  {
    assert TrimStartIndex(s) == 0;
    if s != [] {
      assert SkipWhitespaceBack(s, 0, |s|) == |s|;
    }
  }

  /** `trim` is idempotent. */
  lemma TrimIdempotent(s: string)
    ensures Trim(Trim(s)) == Trim(s)
  {
    TrimOfTrimmed(Trim(s));
  }

  /** `s.startsWith(p)`. */
  predicate StartsWith(s: string, p: string)
    ensures StartsWith(s, p) <==> |p| <= |s| && s == p + s[|p|..]
  {
    |p| <= |s| && s[..|p|] == p
  }

  /** `s.endsWith(p)`. */
  predicate EndsWith(s: string, p: string)
    ensures EndsWith(s, p) <==> |p| <= |s| && s == s[..|s| - |p|] + p
  {
    |p| <= |s| && s[|s| - |p|..] == p
  }

  /** `s.includes(sub)`, computed by scanning from the left. */
  predicate Includes(s: string, sub: string)
    ensures Includes(s, sub) ==> |sub| <= |s|
    ensures StartsWith(s, sub) ==> Includes(s, sub)
    decreases |s|
  {
    if |s| < |sub| then false
    else s[..|sub|] == sub || Includes(s[1..], sub)
  }

  /** `sub` occurs in `s` starting at index `i`. */
  predicate OccursAt(sub: string, s: string, i: nat)
  {
    i + |sub| <= |s| && s[i..i + |sub|] == sub
  }

  /** `sub` occurs in `s` at some position. */
  ghost predicate OccursIn(sub: string, s: string)
  {
    exists i: nat :: OccursAt(sub, s, i)
  }

  /** The scan answers exactly whether `sub` occurs somewhere in `s`. */
  lemma {:induction false} IncludesIffOccurs(s: string, sub: string)
    ensures Includes(s, sub) <==> OccursIn(sub, s)
    decreases |s|
  {
    if |s| < |sub| {
      assert forall i: nat :: !OccursAt(sub, s, i);
    } else if s[..|sub|] == sub {
      assert OccursAt(sub, s, 0);
    } else {
      assert s != [];
      IncludesIffOccurs(s[1..], sub);
      if OccursIn(sub, s[1..]) {
        var i: nat :| OccursAt(sub, s[1..], i);
        assert s[i + 1..i + 1 + |sub|] == s[1..][i..i + |sub|];
        assert OccursAt(sub, s, i + 1);
      }
      if OccursIn(sub, s) {
        var i: nat :| OccursAt(sub, s, i);
        assert i != 0;
        assert s[1..][i - 1..i - 1 + |sub|] == s[i..i + |sub|];
        assert OccursAt(sub, s[1..], i - 1);
      }
    }
  }

  /** `String.prototype.toLowerCase` on one character, for the ASCII letters. */
  function LowerChar(c: char): (r: char)
    ensures 'A' <= c <= 'Z' ==> 'a' <= r <= 'z' && r as int - c as int == 32
    ensures !('A' <= c <= 'Z') ==> r == c
  {
    if 'A' <= c <= 'Z' then (c as int + 32) as char else c
  }

  /** `String.prototype.toLowerCase`, letter by letter. */
  function ToLower(s: string): (r: string)
    ensures |r| == |s|
    ensures forall k :: 0 <= k < |s| ==> r[k] == LowerChar(s[k])
  {
    if s == [] then [] else [LowerChar(s[0])] + ToLower(s[1..])
  }

  /** `parts.join(sep)`. */
  function Join(parts: seq<string>, sep: string): (r: string)
    ensures parts == [] ==> r == ""
    ensures |parts| == 1 ==> r == parts[0]
    ensures parts != [] ==> OccursAt(parts[0], r, 0)
  {
    if parts == [] then ""
    else if |parts| == 1 then parts[0]
    else
      var r := parts[0] + sep + Join(parts[1..], sep);
      assert r[..|parts[0]|] == parts[0];
      r
  }

  /** Joining one more part adds the separator and that part at the end. */
  lemma {:induction false} JoinSnoc(parts: seq<string>, p: string, sep: string)
    requires parts != []
    ensures Join(parts + [p], sep) == Join(parts, sep) + sep + p
  {
    if |parts| > 1 {
      assert (parts + [p])[1..] == parts[1..] + [p];
      JoinSnoc(parts[1..], p, sep);
    } else {
      assert parts + [p] == [parts[0], p];
      assert [parts[0], p][1..] == [p];
    }
  }

  /** A join with a non-empty separator is empty exactly for no parts or one empty part. */
  lemma JoinEmpty(parts: seq<string>, sep: string)
    requires sep != ""
    ensures Join(parts, sep) == "" <==> parts == [] || parts == [""]
  {
    if |parts| == 1 {
      assert parts == [parts[0]];
    }
  }

  /** Each part appears within the join. */
  lemma {:induction false} JoinContainsParts(parts: seq<string>, sep: string, k: nat)
    requires k < |parts|
    ensures OccursIn(parts[k], Join(parts, sep))
  {
    var j := Join(parts, sep);
    if |parts| == 1 || k == 0 {
      assert j[0..0 + |parts[0]|] == parts[0];
      assert OccursAt(parts[k], j, 0);
    } else {
      JoinContainsParts(parts[1..], sep, k - 1);
      var rest := Join(parts[1..], sep);
      var i: nat :| OccursAt(parts[k], rest, i);
      var off := |parts[0]| + |sep|;
      assert j == parts[0] + sep + rest;
      assert j[off..|j|] == rest;
      SliceOfSlice(j, off, |j|, i, i + |parts[k]|);
      assert OccursAt(parts[k], j, off + i);
    }
  }
}
