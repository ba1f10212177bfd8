/**
 * String operations the Speechify scripts rely on, stated over `seq<char>`:
 * the whitespace set of ECMAScript `trim` and `\s`, `trim` itself,
 * `startsWith`/`endsWith`/`includes`, `join`, the ASCII case folding of a
 * case-insensitive regular expression, and the two ways the scripts append a
 * recognised transcript to the text area.
 */
module Text {

  /** ECMAScript WhiteSpace and LineTerminator code points. `String.prototype.trim`
      strips exactly these, and the regular-expression class `\s` matches exactly these. */
  predicate IsSpace(c: char) {
    c == '\t' || c == '\n' || c == '\U{B}' || c == '\U{C}' || c == '\r' || c == ' '
    || c == '\U{A0}' || c == '\U{1680}' || ('\U{2000}' <= c <= '\U{200A}')
    || c == '\U{2028}' || c == '\U{2029}' || c == '\U{202F}' || c == '\U{205F}'
    || c == '\U{3000}' || c == '\U{FEFF}'
  }

  predicate AllSpace(s: string) {
    forall i :: 0 <= i < |s| ==> IsSpace(s[i])
  }

  /** The part of `s` left after dropping its leading whitespace. */
  function TrimStart(s: string): (r: string)
    ensures |r| <= |s| && r == s[|s| - |r|..]
    ensures r == [] || !IsSpace(r[0])
    decreases |s|
  {
    if s != [] && IsSpace(s[0]) then
      var r := TrimStart(s[1..]);
      assert s[1..][|s| - 1 - |r|..] == s[|s| - |r|..];
      r
    else s
  }

  /** What `TrimStart` drops is whitespace. */
  lemma {:induction false} TrimStartDropsSpace(s: string)
    ensures AllSpace(s[..|s| - |TrimStart(s)|])
    decreases |s|
  {
    if s != [] && IsSpace(s[0]) {
      var r := TrimStart(s[1..]);
      assert TrimStart(s) == r;
      TrimStartDropsSpace(s[1..]);
      var rest := s[1..][..|s| - 1 - |r|];
      AllSpaceCons(s[0], rest);
      assert s[..|s| - |r|] == [s[0]] + rest;
    } else {
      assert TrimStart(s) == s;
    }
  }

  lemma AllSpaceCons(c: char, rest: string)
    requires IsSpace(c) && AllSpace(rest)
    ensures AllSpace([c] + rest)
  {
    var t := [c] + rest;
    forall i | 0 <= i < |t|
      ensures IsSpace(t[i])
    {
      if i > 0 {
        assert t[i] == rest[i - 1];
      }
    }
  }

  lemma AllSpaceSnoc(rest: string, c: char)
    requires AllSpace(rest) && IsSpace(c)
    ensures AllSpace(rest + [c])
  {
    var t := rest + [c];
    forall i | 0 <= i < |t|
      ensures IsSpace(t[i])
    {
      if i < |rest| {
        assert t[i] == rest[i];
      }
    }
  }

  /** The part of `s` left after dropping its trailing whitespace. */
  function TrimEnd(s: string): (r: string)
    ensures |r| <= |s| && r == s[..|r|]
    ensures r == [] || !IsSpace(r[|r| - 1])
    decreases |s|
  {
    if s != [] && IsSpace(s[|s| - 1]) then
      var r := TrimEnd(s[..|s| - 1]);
      assert s[..|s| - 1][..|r|] == s[..|r|];
      r
    else s
  }

  /** What `TrimEnd` drops is whitespace. */
  lemma {:induction false} TrimEndDropsSpace(s: string)
    ensures AllSpace(s[|TrimEnd(s)|..])
    decreases |s|
  {
    if s != [] && IsSpace(s[|s| - 1]) {
      var r := TrimEnd(s[..|s| - 1]);
      assert TrimEnd(s) == r;
      TrimEndDropsSpace(s[..|s| - 1]);
      var rest := s[..|s| - 1][|r|..];
      AllSpaceSnoc(rest, s[|s| - 1]);
      assert s[|r|..] == rest + [s[|s| - 1]];
    } else {
      assert TrimEnd(s) == s;
    }
  }

  /** `String.prototype.trim`. */
  function Trim(s: string): (r: string)
    ensures |r| <= |s|
    ensures r == [] || (!IsSpace(r[0]) && !IsSpace(r[|r| - 1]))
  {
    TrimEnd(TrimStart(s))
  }

  /** A string is trimmed to nothing exactly when it is all whitespace. */
  lemma TrimEmptyIffAllSpace(s: string)
    ensures Trim(s) == [] <==> AllSpace(s)
  {
    var a := TrimStart(s);
    TrimStartDropsSpace(s);
    TrimEndDropsSpace(a);
    if Trim(s) == [] {
      assert a[0..] == a;
      assert s == s[..|s| - |a|] + a;
    }
  }

  /** A string that neither begins nor ends with whitespace is its own trim. */
  lemma TrimOfTrimmed(s: string)
    requires s == [] || (!IsSpace(s[0]) && !IsSpace(s[|s| - 1]))
    ensures Trim(s) == s
  {
    assert TrimStart(s) == s;
  }

  /** Trimming twice is trimming once. */
  lemma TrimIdempotent(s: string)
    ensures Trim(Trim(s)) == Trim(s)
  {
    TrimOfTrimmed(Trim(s));
  }

  /** Leading whitespace does not change the trimmed form. */
  lemma {:induction false} TrimStartAbsorbsPadding(pad: string, t: string)
    requires AllSpace(pad)
    ensures TrimStart(pad + t) == TrimStart(t)
    decreases |pad|
  {
    if pad != [] {
      assert (pad + t)[1..] == pad[1..] + t;
      TrimStartAbsorbsPadding(pad[1..], t);
    } else {
      assert pad + t == t;
    }
  }

  lemma TrimAbsorbsPadding(pad: string, t: string)
    requires AllSpace(pad)
    ensures Trim(pad + t) == Trim(t)
  {
    TrimStartAbsorbsPadding(pad, t);
  }

  predicate StartsWith(s: string, prefix: string) {
    |prefix| <= |s| && s[..|prefix|] == prefix
  }

  predicate EndsWith(s: string, suffix: string) {
    |suffix| <= |s| && s[|s| - |suffix|..] == suffix
  }

  predicate OccursAt(s: string, sub: string, i: int) {
    0 <= i && i + |sub| <= |s| && s[i..i + |sub|] == sub
  }

  /** `s.includes(sub)`. */
  predicate Contains(s: string, sub: string) {
    exists i :: 0 <= i <= |s| - |sub| && OccursAt(s, sub, i)
  }

  /** `parts.join(sep)`. */
  function Join(parts: seq<string>, sep: string): string {
    if |parts| == 0 then ""
    else if |parts| == 1 then parts[0]
    else parts[0] + sep + Join(parts[1..], sep)
  }

  /** The concatenation of all parts, in order. */
  function Concat(parts: seq<string>): string {
    if parts == [] then "" else parts[0] + Concat(parts[1..])
  }

  lemma {:induction false} ConcatAppend(a: seq<string>, b: seq<string>)
    ensures Concat(a + b) == Concat(a) + Concat(b)
  {
    if a == [] {
      assert a + b == b;
    } else {
      assert (a + b)[1..] == a[1..] + b;
      ConcatAppend(a[1..], b);
    }
  }

  /** The case folding of a case-insensitive ECMAScript regular expression without
      the `u` flag, restricted to ASCII: only 'A'..'Z' change. */
  function LowerChar(c: char): char {
    if 'A' <= c <= 'Z' then (c as int - 'A' as int + 'a' as int) as char else c
  }

  function Lower(s: string): (r: string)
    ensures |r| == |s|
    ensures forall i :: 0 <= i < |s| ==> r[i] == LowerChar(s[i])
  {
    seq(|s|, i requires 0 <= i < |s| => LowerChar(s[i]))
  }

  /** Case folding never turns a letter into whitespace or back. */
  lemma LowerKeepsSpace(c: char)
    ensures IsSpace(LowerChar(c)) <==> IsSpace(c)
  {
  }

  /** Folding case and trimming commute. */
  lemma {:induction false} LowerTrimStart(s: string)
    ensures Lower(TrimStart(s)) == TrimStart(Lower(s))
    decreases |s|
  {
    if s != [] {
      LowerKeepsSpace(s[0]);
      assert Lower(s)[1..] == Lower(s[1..]);
      LowerTrimStart(s[1..]);
    }
  }

  lemma {:induction false} LowerTrimEnd(s: string)
    ensures Lower(TrimEnd(s)) == TrimEnd(Lower(s))
    decreases |s|
  {
    if s != [] {
      var l := Lower(s);
      LowerKeepsSpace(s[|s| - 1]);
      assert l[|l| - 1] == LowerChar(s[|s| - 1]);
      if IsSpace(s[|s| - 1]) {
        assert l[..|s| - 1] == Lower(s[..|s| - 1]);
        assert TrimEnd(l) == TrimEnd(l[..|l| - 1]);
        LowerTrimEnd(s[..|s| - 1]);
      } else {
        assert TrimEnd(l) == l;
      }
    }
  }

  lemma LowerTrim(s: string)
    ensures Lower(Trim(s)) == Trim(Lower(s))
  {
    LowerTrimStart(s);
    LowerTrimEnd(TrimStart(s));
  }

  /** Whether appending after `text` needs a separating space first: the text is
      non-empty and does not already end in a space. */
  predicate NeedsSeparator(text: string) {
    text != [] && text[|text| - 1] != ' '
  }

  /** `if (text && !text.endsWith(' ')) text += ' '; text += t` */
  function AppendSeparated(text: string, t: string): (r: string)
    ensures |r| == |text| + |t| + (if NeedsSeparator(text) then 1 else 0)
    ensures r[..|text|] == text && r[|r| - |t|..] == t
    ensures NeedsSeparator(text) ==> r[|text|] == ' '
  {
    if text != [] && !EndsWith(text, " ") then text + " " + t else text + t
  }

  /** `text ? text + ' ' + t : t` */
  function AppendWithSpace(text: string, t: string): (r: string)
    ensures |r| == |text| + |t| + (if text == [] then 0 else 1)
    ensures r[..|text|] == text && r[|r| - |t|..] == t
    ensures text != [] ==> r[|text|] == ' '
  {
    if text != [] then text + " " + t else t
  }

  /** The two appending styles differ only when the text already ends in a space. */
  lemma AppendStylesAgree(text: string, t: string)
    requires !EndsWith(text, " ")
    ensures AppendSeparated(text, t) == AppendWithSpace(text, t)
  {
  }
}
