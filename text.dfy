/** The parts of Go's `strings` and `unicode` packages that the tag
    interpreter relies on: `unicode.IsSpace`, `strings.TrimSpace`,
    `strings.Split` on a one-character separator, `strings.Join`,
    `strings.ToLower` and the byte length of a string. */
module Text {

  /** unicode.IsSpace: the Latin-1 spaces plus the other characters of
      Unicode's White_Space property. */
  predicate IsSpace(c: char)
  {
    || c == ' ' || c == '\t' || c == '\n' || c == '\U{B}' || c == '\U{C}' || c == '\r'
    || c == '\U{85}' || c == '\U{A0}' || c == '\U{1680}'
    || ('\U{2000}' <= c <= '\U{200A}')
    || c == '\U{2028}' || c == '\U{2029}' || c == '\U{202F}' || c == '\U{205F}' || c == '\U{3000}'
  }

  function TrimLeft(s: string): string
  {
    if |s| > 0 && IsSpace(s[0]) then TrimLeft(s[1..]) else s
  }

  function TrimRight(s: string): string
  {
    if |s| > 0 && IsSpace(s[|s| - 1]) then TrimRight(s[..|s| - 1]) else s
  }

  /** strings.TrimSpace */
  function TrimSpace(s: string): string
  {
    TrimRight(TrimLeft(s))
  }

  /** Neither the first nor the last character is white space. */
  predicate Trimmed(s: string)
  {
    s == [] || (!IsSpace(s[0]) && !IsSpace(s[|s| - 1]))
  }

  /** Every character of `s` is white space. */
  predicate AllSpace(s: string)
  {
    forall k :: 0 <= k < |s| ==> IsSpace(s[k])
  }

  /** TrimLeft drops a leading run of white space, `s[..i]`, and nothing
      else. */
  lemma {:induction false} TrimLeftShape(s: string) returns (i: nat)
    ensures i <= |s| && TrimLeft(s) == s[i..] && AllSpace(s[..i])
    ensures TrimLeft(s) == [] || !IsSpace(TrimLeft(s)[0])
  {
    if |s| > 0 && IsSpace(s[0]) {
      var i' := TrimLeftShape(s[1..]);
      i := i' + 1;
      assert TrimLeft(s) == s[i..];
      assert s[..i] == [s[0]] + s[1..][..i'];
    } else {
      i := 0;
      assert s[..0] == [];
    }
  }

  /** TrimRight drops a trailing run of white space, `s[j..]`, and nothing
      else. */
  lemma {:induction false} TrimRightShape(s: string) returns (j: nat)
    ensures j <= |s| && TrimRight(s) == s[..j] && AllSpace(s[j..])
    ensures TrimRight(s) == [] || !IsSpace(TrimRight(s)[|TrimRight(s)| - 1])
  {
    if |s| > 0 && IsSpace(s[|s| - 1]) {
      var t := s[..|s| - 1];
      j := TrimRightShape(t);
      assert TrimRight(s) == s[..j];
      assert s[j..] == t[j..] + [s[|s| - 1]];
    } else {
      j := |s|;
      assert s[|s|..] == [];
    }
  }

  /** strings.TrimSpace returns the piece of its argument left after
      dropping the leading and the trailing white space: what it drops is
      white space, and what it keeps neither starts nor ends with any. */
  lemma TrimSpaceTrims(s: string)
    ensures Trimmed(TrimSpace(s))
    ensures exists i, j :: 0 <= i <= j <= |s| && TrimSpace(s) == s[i..j] && AllSpace(s[..i]) && AllSpace(s[j..])
  {
    var i := TrimLeftShape(s);
    var l := TrimLeft(s);
    var k := TrimRightShape(l);
    SuffixSlices(s, i, k, TrimRight(l));
    var r := TrimRight(l);
    if r != [] {
      assert r[0] == l[0];
    }
    assert 0 <= i <= i + k <= |s| && TrimSpace(s) == s[i..i + k] && AllSpace(s[..i]) && AllSpace(s[i + k..]);
  }

  /** A prefix `r` of the suffix `s[i..]`, followed there by white space
      only, is the slice s[i..i + k] and is followed in `s` by white space
      only. */
  lemma SuffixSlices(s: string, i: nat, k: nat, r: string)
    requires i + k <= |s|
    requires r == s[i..][..k] && AllSpace(s[i..][k..])
    ensures r == s[i..i + k] && AllSpace(s[i + k..])
  {
    assert s[i..][k..] == s[i + k..];
  }

  /** strings.TrimSpace is the identity on text without surrounding white
      space; in particular it is idempotent. */
  lemma TrimSpaceKeepsTrimmed(s: string)
    requires Trimmed(s)
    ensures TrimSpace(s) == s
  {
  }

  lemma TrimSpaceIdempotent(s: string)
    ensures TrimSpace(TrimSpace(s)) == TrimSpace(s)
  {
    TrimSpaceTrims(s);
    TrimSpaceKeepsTrimmed(TrimSpace(s));
  }

  /** Number of occurrences of `c` in `s`. */
  function Count(s: string, c: char): nat
  {
    if s == [] then 0 else (if s[0] == c then 1 else 0) + Count(s[1..], c)
  }

  /** strings.Split(s, string(sep)): the pieces between separators, in
      order; always at least one piece. */
  function Split(s: string, sep: char): (parts: seq<string>)
    ensures |parts| >= 1
  {
    if s == [] then [""]
    else
      var rest := Split(s[1..], sep);
      if s[0] == sep then [""] + rest else [[s[0]] + rest[0]] + rest[1..]
  }

  /** strings.Join(parts, string(sep)) */
  function Join(parts: seq<string>, sep: char): string
  {
    if |parts| == 0 then ""
    else if |parts| == 1 then parts[0]
    else parts[0] + [sep] + Join(parts[1..], sep)
  }

  /** strings.Split returns one more piece than there are separators. */
  lemma {:induction false} SplitCount(s: string, sep: char)
    ensures |Split(s, sep)| == Count(s, sep) + 1
  {
    if s != [] {
      SplitCount(s[1..], sep);
    }
  }

  /** No piece of strings.Split contains the separator. */
  lemma {:induction false} SplitPiecesLackSeparator(s: string, sep: char)
    ensures forall k :: 0 <= k < |Split(s, sep)| ==> sep !in Split(s, sep)[k]
  {
    if s != [] {
      SplitPiecesLackSeparator(s[1..], sep);
    }
  }

  /** Joining the pieces of strings.Split with the separator gives back the
      text. */
  lemma {:induction false} JoinSplit(s: string, sep: char)
    ensures Join(Split(s, sep), sep) == s
  {
    if s != [] {
      var rest := Split(s[1..], sep);
      JoinSplit(s[1..], sep);
      if s[0] == sep {
        assert Split(s, sep) == [""] + rest;
        assert ([""] + rest)[1..] == rest;
      } else {
        var parts := [[s[0]] + rest[0]] + rest[1..];
        assert Split(s, sep) == parts;
        if |rest| > 1 {
          assert parts[1..] == rest[1..];
          assert Join(rest, sep) == rest[0] + [sep] + Join(rest[1..], sep);
        }
      }
    }
  }

  /** Conversely, strings.Split undoes strings.Join when no piece contains
      the separator. */
  lemma {:induction false} SplitJoin(parts: seq<string>, sep: char)
    requires |parts| >= 1
    requires forall k :: 0 <= k < |parts| ==> sep !in parts[k]
    ensures Split(Join(parts, sep), sep) == parts
  {
    if |parts| == 1 {
      SplitOfSeparatorFree(parts[0], sep);
    } else {
      SplitJoin(parts[1..], sep);
      SplitAfterPiece(parts[0], sep, Join(parts[1..], sep));
      assert [parts[0]] + parts[1..] == parts;
    }
  }

  lemma {:induction false} SplitOfSeparatorFree(p: string, sep: char)
    requires sep !in p
    ensures Split(p, sep) == [p]
  {
    if p != [] {
      SplitOfSeparatorFree(p[1..], sep);
      assert [p[0]] + p[1..] == p;
    }
  }

  lemma {:induction false} SplitAfterPiece(p: string, sep: char, tail: string)
    requires sep !in p
    ensures Split(p + [sep] + tail, sep) == [p] + Split(tail, sep)
  {
    var s := p + [sep] + tail;
    if p == [] {
      assert s[1..] == tail;
    } else {
      assert s[1..] == p[1..] + [sep] + tail;
      SplitAfterPiece(p[1..], sep, tail);
      assert [p[0]] + p[1..] == p;
    }
  }

  /** ASCII lower-casing: 'A'..'Z' to 'a'..'z', every other character
      unchanged. */
  function LowerChar(c: char): char
  {
    if 'A' <= c <= 'Z' then (c as int + 32) as char else c
  }

  predicate IsAscii(s: string)
  {
    forall k :: 0 <= k < |s| ==> s[k] < '\U{80}'
  }

  predicate HasCapital(s: string)
  {
    exists k :: 0 <= k < |s| && 'A' <= s[k] <= 'Z'
  }

  /** What unicode.ToLower does on the ASCII range, the only part of its
      case tables the model relies on. */
  ghost predicate LowersAscii(lower: char -> char)
  {
    forall c :: c < '\U{80}' ==> lower(c) == LowerChar(c)
  }

  /** strings.ToLower: unicode.ToLower, passed as `lower`, applied to every
      character. */
  function ToLower(lower: char -> char, s: string): (r: string)
    ensures |r| == |s|
  {
    seq(|s|, i requires 0 <= i < |s| => lower(s[i]))
  }

  /** On ASCII text strings.ToLower leaves no capital letter, changes
      nothing but the capitals, and keeps the text ASCII. */
  lemma ToLowerAscii(lower: char -> char, s: string)
    requires LowersAscii(lower)
    requires IsAscii(s)
    ensures IsAscii(ToLower(lower, s)) && !HasCapital(ToLower(lower, s))
    ensures forall k :: 0 <= k < |s| && !('A' <= s[k] <= 'Z') ==> ToLower(lower, s)[k] == s[k]
  {
  }

  /** ASCII text without capitals is a fixed point of strings.ToLower, so
      lower-casing twice is lower-casing once. */
  lemma ToLowerKeepsLower(lower: char -> char, s: string)
    requires LowersAscii(lower)
    requires IsAscii(s) && !HasCapital(s)
    ensures ToLower(lower, s) == s
  {
  }

  lemma ToLowerIdempotent(lower: char -> char, s: string)
    requires LowersAscii(lower)
    requires IsAscii(s)
    ensures ToLower(lower, ToLower(lower, s)) == ToLower(lower, s)
  {
    ToLowerAscii(lower, s);
    ToLowerKeepsLower(lower, ToLower(lower, s));
  }

  /** utf8.RuneLen: the number of bytes of the UTF-8 encoding of `c`. */
  function RuneLen(c: char): (n: nat)
    ensures 1 <= n <= 4
    ensures n == 1 <==> c < '\U{80}'
  {
    if c < '\U{80}' then 1 else if c < '\U{800}' then 2 else if c < '\U{10000}' then 3 else 4
  }

  /** len(s) of a Go string: its length in bytes, UTF-8 encoded. */
  function ByteLen(s: string): (n: nat)
    ensures |s| <= n <= 4 * |s|
    ensures n == |s| <==> IsAscii(s)
  {
    if s == [] then 0 else RuneLen(s[0]) + ByteLen(s[1..])
  }

  /** A Go string is longer than one byte exactly when it has more than one
      character or its one character is not ASCII. */
  lemma ByteLenAboveOne(s: string)
    ensures ByteLen(s) > 1 <==> |s| > 1 || (|s| == 1 && s[0] >= '\U{80}')
  {
  }
}
