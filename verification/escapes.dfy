/**
 Zeytun's escapers (client/zeytun.c: zt_unescape and zt_urlencode). A C string is the characters
 before the first NUL of its buffer.
 */
module Escapes {
  import opened Wrappers

  const NUL: char := '\0'

  /** A character of a C string: one byte, not the terminator. */
  predicate Plain(s: string) {
    forall i :: 0 <= i < |s| ==> 0 < s[i] as int < 256
  }

  // ---- the five entities ------------------------------------------------------------------------------

  /** What the server writes for a character of a value. */
  function Entity(c: char): (e: string)
    ensures e != ""
  {
    match c
    case '&' => "&amp;"
    case '<' => "&lt;"
    case '>' => "&gt;"
    case '\"' => "&quot;"
    case '\'' => "&#39;"
    case _ => [c]
  }

  function Escaped(s: string): string {
    if s == "" then "" else Entity(s[0]) + Escaped(s[1..])
  }

  predicate StartsWith(s: string, prefix: string) {
    |prefix| <= |s| && s[..|prefix|] == prefix
  }

  /** The entity at the front of `s`, as its character and its length; an `&` that starts none stands for itself. */
  function Front(s: string): (r: (char, nat))
    requires s != ""
    ensures 0 < r.1 <= |s|
  {
    if s[0] != '&' then (s[0], 1)
    else if StartsWith(s, "&amp;") then ('&', 5)
    else if StartsWith(s, "&lt;") then ('<', 4)
    else if StartsWith(s, "&gt;") then ('>', 4)
    else if StartsWith(s, "&quot;") then ('\"', 6)
    else if StartsWith(s, "&#39;") then ('\'', 5)
    else (s[0], 1)
  }

  function Unescaped(s: string): (r: string)
    ensures |r| <= |s|
  {
    if s == "" then "" else [Front(s).0] + Unescaped(s[Front(s).1..])
  }

  lemma FrontOfEntity(c: char, rest: string)
    ensures Front(Entity(c) + rest) == (c, |Entity(c)|)
  {
    var s := Entity(c) + rest;
    assert s[..|Entity(c)|] == Entity(c);
    if c == '<' || c == '>' { assert s[1] != 'a'; }
    if c == '>' { assert s[1] != 'l'; }
    if c == '\"' { assert s[1] == 'q'; }
    if c == '\'' { assert s[1] == '#'; }
  }

  /** Unescaping undoes escaping, on every string. */
  lemma {:induction false} UnescapeInverts(s: string)
    ensures Unescaped(Escaped(s)) == s
  {
    if s != "" {
      var rest := Escaped(s[1..]);
      FrontOfEntity(s[0], rest);
      assert (Entity(s[0]) + rest)[|Entity(s[0])|..] == rest;
      UnescapeInverts(s[1..]);
    }
  }

  /** An escaped string has none of the five characters left but `&`, so a page can be told from its markup. */
  lemma {:induction false} EscapedIsInert(s: string)
    ensures forall i :: 0 <= i < |Escaped(s)| ==> Escaped(s)[i] !in {'<', '>', '\"', '\''}
  {
    if s != "" { EscapedIsInert(s[1..]); }
  }

  /** From `r` on the buffer holds a C string that ends at `n`. */
  ghost predicate Terminated(b: seq<char>, r: nat, n: nat) {
    r <= n < |b| && b[n] == NUL && forall i :: r <= i < n ==> b[i] != NUL
  }

  /** strncmp(s + r, word, |word|) == 0: it stops at the first difference, so it never reads past the terminator. */
  method Matches(b: array<char>, r: nat, word: string, ghost n: nat) returns (same: bool)
    requires Terminated(b[..], r, n) && forall i :: 0 <= i < |word| ==> word[i] != NUL
    ensures same <==> StartsWith(b[r..n], word)
  {
    var i := 0;
    while i < |word|
      invariant 0 <= i <= |word| && r + i <= n && b[r..r + i] == word[..i]
    {
      assert b[..][n] == NUL;
      if b[r + i] != word[i] {
        assert r + i < n ==> b[r..n][i] == b[r + i];
        return false;
      }
      assert r + i != n;
      i := i + 1;
    }
    assert b[r..n][..|word|] == b[r..r + |word|];
    return true;
  }

  /** Which entity begins at `r`, and how long it is. */
  method FrontAt(b: array<char>, r: nat, ghost n: nat) returns (c: char, k: nat)
    requires r < n && Terminated(b[..], r, n)
    ensures (c, k) == Front(b[r..n])
  {
    if b[r] == '&' {
      var same := Matches(b, r, "&amp;", n);
      if same { return '&', 5; }
      same := Matches(b, r, "&lt;", n);
      if same { return '<', 4; }
      same := Matches(b, r, "&gt;", n);
      if same { return '>', 4; }
      same := Matches(b, r, "&quot;", n);
      if same { return '\"', 6; }
      same := Matches(b, r, "&#39;", n);
      if same { return '\'', 5; }
    }
    return b[r], 1;
  }

  lemma UnescapeStep(done: string, text: string, r: nat)
    requires r < |text|
    ensures var (c, k) := Front(text[r..]);
            r + k <= |text| && done + Unescaped(text[r..]) == (done + [c]) + Unescaped(text[r + k..])
  {
    hide Front;
    var (c, k) := Front(text[r..]);
    assert text[r..][k..] == text[r + k..];
    assert done + ([c] + Unescaped(text[r + k..])) == (done + [c]) + Unescaped(text[r + k..]);
  }

  lemma UnescapeEnd(s: string)
    requires s == ""
    ensures Unescaped(s) == ""
  {
  }

  /** zt_unescape: in place, the write index never past the read index. */
  method Unescape(b: array<char>, ghost n: nat) returns (w: nat)
    requires Terminated(b[..], 0, n)
    modifies b
    ensures w <= n && b[..w] == Unescaped(old(b[..n])) && b[w] == NUL
    ensures forall i :: n < i < b.Length ==> b[i] == old(b[i])
  {
    hide Front, Unescaped;
    ghost var text := b[..n];
    var r := 0;
    w := 0;
    assert text[0..] == text;
    while b[r] != NUL
      invariant 0 <= w <= r && Terminated(b[..], r, n)
      invariant forall i :: r <= i < b.Length ==> b[i] == old(b[i])
      invariant b[..w] + Unescaped(text[r..]) == Unescaped(text)
      decreases n - r
    {
      var c, k := FrontAt(b, r, n);
      assert b[r..n] == text[r..];
      ghost var done := b[..w];
      UnescapeStep(done, text, r);
      b[w] := c;
      assert b[..w + 1] == done + [c];
      w, r := w + 1, r + k;
    }
    UnescapeEnd(text[n..]);
    assert b[..w] + "" == b[..w];
    b[w] := NUL;
  }

  // ---- percent encoding, sections 2.1 and 2.3 of RFC 3986 ----------------------------------------------

  predicate Unreserved(c: char) {
    'a' <= c <= 'z' || 'A' <= c <= 'Z' || '0' <= c <= '9' || c == '-' || c == '_' || c == '.' || c == '~'
  }

  function HexDigit(d: nat): char
    requires d < 16
  {
    "0123456789ABCDEF"[d]
  }

  /** Either case is read, as the standard asks. */
  function HexValue(c: char): Option<nat> {
    if '0' <= c <= '9' then Some(c as int - '0' as int)
    else if 'A' <= c <= 'F' then Some(c as int - 'A' as int + 10)
    else if 'a' <= c <= 'f' then Some(c as int - 'a' as int + 10)
    else None
  }

  function Percent(c: char): (e: string)
    requires (c as int) < 256
    ensures |e| == if Unreserved(c) then 1 else 3
  {
    if Unreserved(c) then [c] else ['%', HexDigit(c as int / 16), HexDigit(c as int % 16)]
  }

  function UrlEncoded(s: string): string
    requires Plain(s)
  {
    if s == "" then "" else Percent(s[0]) + UrlEncoded(s[1..])
  }

  function UrlDecoded(s: string): Option<string> {
    if s == "" then Some("")
    else if s[0] != '%' then
      match UrlDecoded(s[1..]) case None => None case Some(t) => Some([s[0]] + t)
    else if |s| < 3 || HexValue(s[1]).None? || HexValue(s[2]).None? then None
    else
      match UrlDecoded(s[3..])
      case None => None
      case Some(t) => Some([(16 * HexValue(s[1]).value + HexValue(s[2]).value) as char] + t)
  }

  lemma HexReadsBack(d: nat)
    requires d < 16
    ensures HexValue(HexDigit(d)) == Some(d)
  {
  }

  /** Decoding gives back every string that was encoded. */
  lemma {:induction false} DecodeInverts(s: string)
    requires Plain(s)
    ensures UrlDecoded(UrlEncoded(s)) == Some(s)
  {
    if s != "" {
      var c, rest := s[0], UrlEncoded(s[1..]);
      DecodeInverts(s[1..]);
      assert [c] + s[1..] == s;
      var e := Percent(c) + rest;
      if Unreserved(c) {
        assert e[0] == c != '%' && e[1..] == rest;
      } else {
        HexReadsBack(c as int / 16);
        HexReadsBack(c as int % 16);
        assert e[3..] == rest && 16 * (c as int / 16) + c as int % 16 == c as int;
      }
    }
  }

  /** Only unreserved characters and percent signs come out. */
  lemma {:induction false} EncodedIsUnreserved(s: string)
    requires Plain(s)
    ensures forall i :: 0 <= i < |UrlEncoded(s)| ==> Unreserved(UrlEncoded(s)[i]) || UrlEncoded(s)[i] == '%'
  {
    if s != "" { EncodedIsUnreserved(s[1..]); }
  }

  lemma EncodeStep(done: string, s: string, p: nat)
    requires Plain(s) && p < |s|
    ensures Plain(s[p..]) && Plain(s[p + 1..])
    ensures done + UrlEncoded(s[p..]) == (done + Percent(s[p])) + UrlEncoded(s[p + 1..])
  {
    hide Percent;
    assert s[p..][0] == s[p] && s[p..][1..] == s[p + 1..];
    assert done + (Percent(s[p]) + UrlEncoded(s[p + 1..])) == (done + Percent(s[p])) + UrlEncoded(s[p + 1..]);
  }

  lemma EncodeEnd(s: string)
    requires s == ""
    ensures Plain(s) && UrlEncoded(s) == ""
  {
  }

  /** One character of it: as it is or in percent form, if there is room for that and a terminator. */
  method PutPercent(out: array<char>, w: nat, c: char, cap: nat) returns (ok: bool)
    requires (c as int) < 256 && w <= cap <= out.Length
    modifies out
    ensures ok <==> w + |Percent(c)| + 1 <= cap
    ensures ok ==> out[..w + |Percent(c)|] == old(out[..w]) + Percent(c)
    ensures forall i :: cap <= i < out.Length ==> out[i] == old(out[i])
  {
    hide HexDigit, Unreserved;
    if Unreserved(c) {
      if w + 2 > cap { return false; }
      out[w] := c;
    } else {
      if w + 4 > cap { return false; }
      out[w], out[w + 1], out[w + 2] := '%', HexDigit(c as int / 16), HexDigit(c as int % 16);
    }
    ok := true;
  }

  /** zt_urlencode: it succeeds exactly when the encoding and its terminator fit, and then they are there. */
  method UrlEncode(s: string, out: array<char>, cap: nat) returns (ok: bool)
    requires Plain(s) && cap <= out.Length
    modifies out
    ensures ok <==> |UrlEncoded(s)| + 1 <= cap
    ensures ok ==> out[..|UrlEncoded(s)|] == UrlEncoded(s) && out[|UrlEncoded(s)|] == NUL
    ensures forall i :: cap <= i < out.Length ==> out[i] == old(out[i])
  {
    hide UrlEncoded, Percent;
    var w, p := 0, 0;
    assert s[0..] == s;
    while p < |s|
      invariant 0 <= p <= |s| && 0 <= w && Plain(s[p..]) && (p > 0 ==> w + 1 <= cap) && w <= cap
      invariant out[..w] + UrlEncoded(s[p..]) == UrlEncoded(s)
      invariant forall i :: cap <= i < out.Length ==> out[i] == old(out[i])
    {
      ghost var done := out[..w];
      EncodeStep(done, s, p);
      ok := PutPercent(out, w, s[p], cap);
      if !ok { return; }
      w := w + |Percent(s[p])|;
      p := p + 1;
    }
    EncodeEnd(s[p..]);
    assert out[..w] + "" == out[..w];
    if w + 1 > cap { return false; }
    out[w] := NUL;
    return true;
  }
}
