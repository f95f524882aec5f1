/** Character classes and string operations the models share: JavaScript's `trim`,
    Python's `strip`, ASCII case mapping, `split`/`join`, substring tests, decimal
    rendering of integers and `encodeURIComponent`. */
module Text {

  /** White space as JavaScript's `String.prototype.trim` and the regular-expression
      class `\s` see it: the WhiteSpace and LineTerminator code points of ECMA-262. */
  predicate IsJsSpace(c: char) {
    c == ' ' || c == '\t' || c == '\n' || c == '\r' || c == '\U{B}' || c == '\U{C}'
    || c == '\U{A0}' || c == '\U{1680}' || ('\U{2000}' <= c <= '\U{200A}')
    || c == '\U{2028}' || c == '\U{2029}' || c == '\U{202F}' || c == '\U{205F}'
    || c == '\U{3000}' || c == '\U{FEFF}'
  }

  /** White space as Python's `str.isspace` (and so `str.strip()`) sees it. */
  predicate IsPySpace(c: char) {
    c == ' ' || ('\t' <= c <= '\r') || ('\U{1C}' <= c <= '\U{1F}')
    || c == '\U{85}' || c == '\U{A0}' || c == '\U{1680}' || ('\U{2000}' <= c <= '\U{200A}')
    || c == '\U{2028}' || c == '\U{2029}' || c == '\U{202F}' || c == '\U{205F}'
    || c == '\U{3000}'
  }

  /** `s` with the characters in `ws` removed from both ends, one at a time. */
  function TrimBy(s: string, ws: char -> bool): string
    decreases |s|
  {
    if s != [] && ws(s[0]) then TrimBy(s[1..], ws)
    else if s != [] && ws(s[|s| - 1]) then TrimBy(s[..|s| - 1], ws)
    else s
  }

  /** JavaScript `s.trim()`. */
  function Trim(s: string): string { TrimBy(s, IsJsSpace) }

  /** Python `s.strip()`. */
  function Strip(s: string): string { TrimBy(s, IsPySpace) }

  /** A string is trimmed with respect to `ws` when it neither starts nor ends with a character of `ws`. */
  predicate TrimmedBy(s: string, ws: char -> bool) {
    s == [] || (!ws(s[0]) && !ws(s[|s| - 1]))
  }

  /** Trimming leaves a trimmed string, which is empty exactly when every character was white
      space. */
  lemma {:induction false} TrimByTrims(s: string, ws: char -> bool)
    ensures TrimmedBy(TrimBy(s, ws), ws)
    ensures TrimBy(s, ws) == [] <==> forall i :: 0 <= i < |s| ==> ws(s[i])
    decreases |s|
  {
    if s != [] && ws(s[0]) {
      TrimByTrims(s[1..], ws);
      var r := TrimBy(s, ws);
      if r == [] {
        forall i | 0 <= i < |s| ensures ws(s[i]) { if i > 0 { assert s[i] == s[1..][i - 1]; } }
      }
    } else if s != [] && ws(s[|s| - 1]) {
      var init := s[..|s| - 1];
      TrimByTrims(init, ws);
      var r := TrimBy(s, ws);
      if r == [] {
        forall i | 0 <= i < |s| ensures ws(s[i]) { if i < |s| - 1 { assert s[i] == init[i]; } }
      }
    }
  }

  /** A string that is already trimmed is left unchanged by trimming. */
  lemma TrimByOfTrimmed(s: string, ws: char -> bool)
    requires TrimmedBy(s, ws)
    ensures TrimBy(s, ws) == s
  {
  }

  /** Trimming only removes characters. */
  lemma {:induction false} TrimByWithout(s: string, ws: char -> bool, c: char)
    ensures c !in s ==> c !in TrimBy(s, ws)
    decreases |s|
  {
    if c in s {
    } else if s != [] && ws(s[0]) {
      assert c !in s[1..];
      TrimByWithout(s[1..], ws, c);
    } else if s != [] && ws(s[|s| - 1]) {
      assert c !in s[..|s| - 1];
      TrimByWithout(s[..|s| - 1], ws, c);
    }
  }

  /** Trimming twice is trimming once. */
  lemma TrimByIdempotent(s: string, ws: char -> bool)
    ensures TrimBy(TrimBy(s, ws), ws) == TrimBy(s, ws)
  {
    TrimByTrims(s, ws);
    TrimByOfTrimmed(TrimBy(s, ws), ws);
  }

  predicate IsAsciiUpper(c: char) { 'A' <= c <= 'Z' }
  predicate IsAsciiLower(c: char) { 'a' <= c <= 'z' }
  predicate IsDigit(c: char) { '0' <= c <= '9' }
  predicate IsAsciiAlnum(c: char) { IsAsciiUpper(c) || IsAsciiLower(c) || IsDigit(c) }

  function LowerChar(c: char): char {
    if IsAsciiUpper(c) then (c as int - 'A' as int + 'a' as int) as char else c
  }

  function UpperChar(c: char): char {
    if IsAsciiLower(c) then (c as int - 'a' as int + 'A' as int) as char else c
  }

  /** `s.toLowerCase()` (JavaScript) and `s.lower()` (Python), for the ASCII letters. */
  function Lower(s: string): (r: string) {
    seq(|s|, i requires 0 <= i < |s| => LowerChar(s[i]))
  }

  /** `s.toUpperCase()`, for the ASCII letters. */
  function Upper(s: string): (r: string) {
    seq(|s|, i requires 0 <= i < |s| => UpperChar(s[i]))
  }

  lemma LowerIdempotent(s: string)
    ensures Lower(Lower(s)) == Lower(s)
  {
  }

  lemma LowerConcat(a: string, b: string)
    ensures Lower(a + b) == Lower(a) + Lower(b)
  {
  }

  /** Case mapping neither creates nor removes white space, so it commutes with trimming. */
  lemma {:induction false} TrimByLower(s: string, ws: char -> bool)
    requires forall c :: ws(LowerChar(c)) == ws(c)
    ensures TrimBy(Lower(s), ws) == Lower(TrimBy(s, ws))
    decreases |s|
  {
    if s != [] {
      assert Lower(s)[0] == LowerChar(s[0]);
      assert Lower(s)[|s| - 1] == LowerChar(s[|s| - 1]);
      if ws(s[0]) {
        assert Lower(s)[1..] == Lower(s[1..]);
        TrimByLower(s[1..], ws);
      } else if ws(s[|s| - 1]) {
        assert Lower(s)[..|s| - 1] == Lower(s[..|s| - 1]);
        TrimByLower(s[..|s| - 1], ws);
      }
    }
  }

  lemma JsSpaceIgnoresCase()
    ensures forall c :: IsJsSpace(LowerChar(c)) == IsJsSpace(c)
  {
  }

  lemma PySpaceIgnoresCase()
    ensures forall c :: IsPySpace(LowerChar(c)) == IsPySpace(c)
  {
  }

  lemma TrimLower(s: string)
    ensures Trim(Lower(s)) == Lower(Trim(s))
  {
    JsSpaceIgnoresCase();
    TrimByLower(s, IsJsSpace);
  }

  lemma AppendAssociative<T>(a: seq<T>, b: seq<T>, c: seq<T>)
    ensures a + b + c == a + (b + c)
  {
  }

  /** `p` is a prefix of `s`. */
  predicate StartsWith(s: string, p: string) {
    |p| <= |s| && s[..|p|] == p
  }

  /** The three pieces of `a + [c] + b` are found again at their places. */
  lemma ConcatPieces(a: string, c: char, b: string)
    ensures var s := a + [c] + b;
            && StartsWith(s, a) && |a| < |s| && s[|a|] == c && s[|a| + 1..] == b
  {
    var s := a + [c] + b;
    assert s[..|a|] == a;
    assert s[|a| + 1..] == b;
  }

  /** `sub` occurs in `s` (JavaScript `s.includes(sub)`). */
  predicate Contains(s: string, sub: string)
    decreases |s|
  {
    StartsWith(s, sub) || (s != [] && Contains(s[1..], sub))
  }

  /** `s.split(sep)` for a one-character separator: never empty, `"".split(sep) == [""]`. */
  function Split(s: string, sep: char): (parts: seq<string>)
    ensures |parts| >= 1
  {
    if s == [] then [[]]
    else
      var rest := Split(s[1..], sep);
      if s[0] == sep then [[]] + rest else [[s[0]] + rest[0]] + rest[1..]
  }

  /** `parts.join(sep)`. */
  function Join(parts: seq<string>, sep: string): string {
    if |parts| == 0 then []
    else if |parts| == 1 then parts[0]
    else parts[0] + sep + Join(parts[1..], sep)
  }

  /** The number of occurrences of `c` in `s`. */
  function Count(s: string, c: char): nat {
    if s == [] then 0 else (if s[0] == c then 1 else 0) + Count(s[1..], c)
  }

  /** `split` cuts at every separator and keeps everything else: the pieces contain no separator,
      there is one more of them than separators, and joining them back gives the input. */
  lemma {:induction false} SplitJoin(s: string, sep: char)
    ensures |Split(s, sep)| == Count(s, sep) + 1
    ensures forall i :: 0 <= i < |Split(s, sep)| ==> sep !in Split(s, sep)[i]
    ensures Join(Split(s, sep), [sep]) == s
  {
    if s != [] {
      SplitJoin(s[1..], sep);
      var rest := Split(s[1..], sep);
      if s[0] == sep {
        assert Split(s, sep) == [[]] + rest;
        assert Join(Split(s, sep), [sep]) == [] + [sep] + Join(rest, [sep]);
      } else {
        var parts := Split(s, sep);
        assert parts == [[s[0]] + rest[0]] + rest[1..];
        if |rest| == 1 {
          assert Join(parts, [sep]) == [s[0]] + rest[0];
        } else {
          assert parts[1..] == rest[1..];
          assert Join(rest, [sep]) == rest[0] + [sep] + Join(rest[1..], [sep]);
        }
      }
    }
  }

  /** Joining separator-free pieces and splitting again gives the pieces back. */
  lemma {:induction false} JoinSplit(parts: seq<string>, sep: char)
    requires |parts| >= 1
    requires forall i :: 0 <= i < |parts| ==> sep !in parts[i]
    ensures Split(Join(parts, [sep]), sep) == parts
  {
    if |parts| == 1 {
      NoSepSplit(parts[0], sep);
    } else {
      JoinSplit(parts[1..], sep);
      SplitAfter(parts[0], sep, Join(parts[1..], [sep]));
      assert Join(parts, [sep]) == parts[0] + ([sep] + Join(parts[1..], [sep]));
      assert [parts[0]] + parts[1..] == parts;
    }
  }

  /** A join ends with its last piece. */
  lemma {:induction false} JoinEndsWithLast(parts: seq<string>, sep: string)
    requires |parts| >= 1
    ensures var last := parts[|parts| - 1]; var s := Join(parts, sep);
            |last| <= |s| && s[|s| - |last|..] == last
  {
    if |parts| > 1 {
      var last := parts[|parts| - 1];
      JoinEndsWithLast(parts[1..], sep);
      var head := parts[0] + sep;
      var tail := Join(parts[1..], sep);
      assert Join(parts, sep) == head + tail;
      assert (head + tail)[|head + tail| - |last|..] == tail[|tail| - |last|..];
    }
  }

  /** The first piece of a split holds no separator, is a prefix of the input, and is followed
      by a separator when the input has one. */
  lemma {:induction false} SplitFirst(s: string, sep: char)
    ensures var first := Split(s, sep)[0];
            sep !in first && StartsWith(s, first) && (sep in s ==> |first| < |s| && s[|first|] == sep)
  {
    if s != [] {
      SplitFirst(s[1..], sep);
      if s[0] != sep {
        var r := Split(s[1..], sep)[0];
        assert Split(s, sep)[0] == [s[0]] + r;
        assert s[..1 + |r|] == [s[0]] + s[1..][..|r|];
        assert sep in s ==> sep in s[1..];
        assert |r| < |s[1..]| ==> s[1 + |r|] == s[1..][|r|];
      }
    }
  }

  /** The last piece of a split holds no separator and is a suffix of the input. */
  lemma SplitLast(s: string, sep: char)
    ensures var parts := Split(s, sep); var last := parts[|parts| - 1];
            sep !in last && |last| <= |s| && s[|s| - |last|..] == last
  {
    var parts := Split(s, sep);
    assert sep !in parts[|parts| - 1] && Join(parts, [sep]) == s by {
      SplitJoin(s, sep);
    }
    JoinEndsWithLast(parts, [sep]);
  }

  /** The last piece of a split sits right after the last separator. */
  lemma SplitEndsAtSep(s: string, sep: char)
    ensures var parts := Split(s, sep); var last := parts[|parts| - 1];
            sep in s ==> |last| < |s| && s[|s| - |last| - 1] == sep
  {
    var parts := Split(s, sep);
    if sep in s {
      SplitJoin(s, sep);
      JoinLastSep(parts, sep);
    }
  }

  lemma {:induction false} JoinLastSep(parts: seq<string>, sep: char)
    requires |parts| >= 2
    ensures var last := parts[|parts| - 1]; var s := Join(parts, [sep]);
            |last| < |s| && s[|s| - |last| - 1] == sep
  {
    var last := parts[|parts| - 1];
    var tail := Join(parts[1..], [sep]);
    var head := parts[0] + [sep];
    assert Join(parts, [sep]) == head + tail;
    if |parts| == 2 {
      assert tail == last;
    } else {
      JoinLastSep(parts[1..], sep);
    }
    var s := head + tail;
    assert s[|s| - |last| - 1] == (if |parts| == 2 then head[|head| - 1] else tail[|tail| - |last| - 1]);
  }

  /** The last piece of `a + [sep] + b`, when `b` holds no separator, is `b`. */
  lemma LastPieceOf(a: string, sep: char, b: string)
    requires sep !in b
    ensures var parts := Split(a + [sep] + b, sep); parts[|parts| - 1] == b
    ensures sep in a + [sep] + b
  {
    SplitConcat(a, sep, b);
    NoSepSplit(b, sep);
    assert (a + [sep] + b)[|a|] == sep;
  }

  lemma {:induction false} NoSepSplit(s: string, sep: char)
    requires sep !in s
    ensures Split(s, sep) == [s]
  {
    if s != [] {
      NoSepSplit(s[1..], sep);
      assert [s[0]] + s[1..] == s;
    }
  }

  lemma {:induction false} SplitAfter(a: string, sep: char, b: string)
    requires sep !in a
    ensures Split(a + [sep] + b, sep) == [a] + Split(b, sep)
  {
    if a == [] {
      assert a + [sep] + b == [sep] + b;
      assert ([sep] + b)[1..] == b;
    } else {
      assert (a + [sep] + b)[1..] == a[1..] + [sep] + b;
      SplitAfter(a[1..], sep, b);
      assert [a[0]] + a[1..] == a;
    }
  }

  /** Splitting at a separator placed between two strings splits each of them on its own. */
  lemma {:induction false} SplitConcat(a: string, sep: char, b: string)
    ensures Split(a + [sep] + b, sep) == Split(a, sep) + Split(b, sep)
  {
    var s := a + [sep] + b;
    var right := Split(b, sep);
    if a == [] {
      assert s == [sep] + b;
      assert s[1..] == b;
    } else {
      assert s[0] == a[0];
      assert s[1..] == a[1..] + [sep] + b;
      SplitConcat(a[1..], sep, b);
      var left := Split(a[1..], sep);
      var rest := left + right;
      assert Split(s[1..], sep) == rest;
      if a[0] == sep {
        assert Split(s, sep) == [[]] + rest;
        assert Split(a, sep) == [[]] + left;
        AppendAssociative([[]], left, right);
      } else {
        assert rest[0] == left[0];
        assert rest[1..] == left[1..] + right;
        assert Split(s, sep) == [[a[0]] + left[0]] + rest[1..];
        assert Split(a, sep) == [[a[0]] + left[0]] + left[1..];
        AppendAssociative([[a[0]] + left[0]], left[1..], right);
      }
    }
  }

  /** The decimal digits of a natural number. */
  function NatToString(n: nat): (r: string)
    ensures r != [] && forall i :: 0 <= i < |r| ==> IsDigit(r[i])
  {
    var d := [(n % 10 + '0' as int) as char];
    if n < 10 then d else NatToString(n / 10) + d
  }

  /** The value of a string of decimal digits. */
  function DigitsValue(s: string): nat
    requires forall i :: 0 <= i < |s| ==> IsDigit(s[i])
  {
    if s == [] then 0
    else
      assert IsDigit(s[|s| - 1]);
      DigitsValue(s[..|s| - 1]) * 10 + (s[|s| - 1] as int - '0' as int)
  }

  /** Rendering an integer in decimal loses nothing: the digits read back as the number. */
  lemma {:induction false} NatToStringValue(n: nat)
    ensures DigitsValue(NatToString(n)) == n
  {
    var r := NatToString(n);
    if n >= 10 {
      NatToStringValue(n / 10);
      assert r[..|r| - 1] == NatToString(n / 10);
    }
  }

  /** `String(n)` for an integer number. */
  function IntToString(n: int): (r: string)
    ensures r != []
  {
    if n < 0 then "-" + NatToString(-n) else NatToString(n)
  }

  /** The characters `encodeURIComponent` leaves as they are. */
  predicate IsUriUnreserved(c: char) {
    IsAsciiAlnum(c) || c == '-' || c == '_' || c == '.' || c == '!' || c == '~'
    || c == '*' || c == '\'' || c == '(' || c == ')'
  }

  predicate IsUpperHexDigit(c: char) { IsDigit(c) || ('A' <= c <= 'F') }

  function HexDigit(d: nat): (c: char)
    requires d < 16
    ensures IsUpperHexDigit(c)
  {
    "0123456789ABCDEF"[d]
  }

  /** The bytes of the UTF-8 encoding of one Unicode scalar value. */
  function Utf8(c: char): (bytes: seq<nat>)
    ensures 1 <= |bytes| <= 4
    ensures forall i :: 0 <= i < |bytes| ==> bytes[i] < 256
  {
    var cp := c as int;
    if cp < 0x80 then [cp]
    else if cp < 0x800 then [0xC0 + cp / 64, 0x80 + cp % 64]
    else if cp < 0x10000 then [0xE0 + cp / 4096, 0x80 + (cp / 64) % 64, 0x80 + cp % 64]
    else [0xF0 + cp / 262144, 0x80 + (cp / 4096) % 64, 0x80 + (cp / 64) % 64, 0x80 + cp % 64]
  }

  /** `%XY` for every byte. */
  function PercentBytes(bytes: seq<nat>): (r: string)
    requires forall i :: 0 <= i < |bytes| ==> bytes[i] < 256
    ensures |r| == 3 * |bytes|
    ensures forall i :: 0 <= i < |r| ==> r[i] == '%' || IsUpperHexDigit(r[i])
  {
    if bytes == [] then []
    else ['%', HexDigit(bytes[0] / 16), HexDigit(bytes[0] % 16)] + PercentBytes(bytes[1..])
  }

  function EncodeChar(c: char): string {
    if IsUriUnreserved(c) then [c] else PercentBytes(Utf8(c))
  }

  /** `encodeURIComponent(s)`; the platform's UTF-16 strings never hold a lone surrogate here,
      since a Dafny `char` is a Unicode scalar value, so the encoding never throws. */
  function EncodeUriComponent(s: string): (r: string)
    ensures forall i :: 0 <= i < |r| ==> IsUriUnreserved(r[i]) || r[i] == '%' || IsUpperHexDigit(r[i])
  {
    if s == [] then [] else EncodeChar(s[0]) + EncodeUriComponent(s[1..])
  }

  /** A character that is neither unreserved, nor `%`, nor an upper-case hex digit never appears
      in an encoding. */
  lemma EncodedHasNo(s: string, c: char)
    requires !IsUriUnreserved(c) && c != '%' && !IsUpperHexDigit(c)
    ensures c !in EncodeUriComponent(s)
  {
  }

  /** One query parameter, `name=` followed by the encoded value. */
  function QueryParam(name: string, value: string): string {
    name + "=" + EncodeUriComponent(value)
  }

  /** A query parameter holds a reserved character only where its name does. */
  lemma QueryParamHasNo(name: string, value: string, c: char)
    requires c !in name && c != '='
    requires !IsUriUnreserved(c) && c != '%' && !IsUpperHexDigit(c)
    ensures c !in QueryParam(name, value)
  {
    EncodedHasNo(value, c);
  }

  /** A string of unreserved characters is its own encoding... */
  lemma {:induction false} EncodeUnreservedIdentity(s: string)
    requires forall i :: 0 <= i < |s| ==> IsUriUnreserved(s[i])
    ensures EncodeUriComponent(s) == s
  {
    if s != [] {
      EncodeUnreservedIdentity(s[1..]);
      assert [s[0]] + s[1..] == s;
    }
  }

  /** ...and any other character changes the encoding: it is replaced by at least three characters. */
  lemma {:induction false} EncodeGrows(s: string)
    ensures |EncodeUriComponent(s)| >= |s|
    ensures (exists i :: 0 <= i < |s| && !IsUriUnreserved(s[i])) ==> |EncodeUriComponent(s)| >= |s| + 2
  {
    if s != [] {
      EncodeGrows(s[1..]);
      if exists i :: 0 <= i < |s| && !IsUriUnreserved(s[i]) {
        var i :| 0 <= i < |s| && !IsUriUnreserved(s[i]);
        if i > 0 { assert !IsUriUnreserved(s[1..][i - 1]); }
      }
    }
  }
}
