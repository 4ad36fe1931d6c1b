/** The JavaScript string operations the receipt scripts lean on, written out
    with the semantics the ECMAScript standard gives them: `trim`, `split`,
    `parseInt(s, 10)`, number-to-string, `padStart(2, '0')`, `includes`,
    `replace` with a global regular expression, and the byte-wise text
    comparison SQLite applies to TEXT values. */
module JsText {
  import opened Wrappers
  import opened Sequences

  // ---------------------------------------------------------------------
  // Whitespace and trim
  // ---------------------------------------------------------------------

  /** WhiteSpace and LineTerminator of ECMAScript (section 12.2 and 12.3 of
      ECMA-262): tab, vertical tab, form feed, space, no-break space, byte
      order mark, the Zs category, LF, CR, LS and PS. */
  predicate IsJsSpace(c: char) {
    c == '\t' || c == '\n' || c == '\U{000B}' || c == '\U{000C}' || c == '\r' ||
    c == ' ' || c == '\U{00A0}' || c == '\U{1680}' || ('\U{2000}' <= c <= '\U{200A}') ||
    c == '\U{2028}' || c == '\U{2029}' || c == '\U{202F}' || c == '\U{205F}' ||
    c == '\U{3000}' || c == '\U{FEFF}'
  }

  /** `r` occurs in `s` starting at index `i`. */
  predicate InfixAt(r: string, s: string, i: int) {
    0 <= i <= |s| - |r| && s[i..i + |r|] == r
  }

  /** `String.prototype.trimStart`. */
  function TrimStart(s: string): (r: string)
    ensures |r| <= |s|
    ensures r == [] || !IsJsSpace(r[0])
    ensures forall i :: 0 <= i < |s| - |r| ==> IsJsSpace(s[i])
  {
    if s != [] && IsJsSpace(s[0]) then TrimStart(s[1..]) else s
  }

  /** `String.prototype.trimEnd`. */
  function TrimEnd(s: string): (r: string)
    ensures |r| <= |s|
    ensures r == [] || !IsJsSpace(r[|r| - 1])
    ensures forall i :: |r| <= i < |s| ==> IsJsSpace(s[i])
  {
    if s != [] && IsJsSpace(s[|s| - 1]) then TrimEnd(s[..|s| - 1]) else s
  }

  /** `String.prototype.trim`: the result is the middle of `s` once every
      leading and trailing whitespace character is gone. */
  function Trim(s: string): (r: string)
    ensures r == [] || (!IsJsSpace(r[0]) && !IsJsSpace(r[|r| - 1]))
  {
    var t := TrimStart(s);
    TrimEndPrefix(t);
    TrimEnd(t)
  }

  /** `trimStart` keeps a suffix of its input. */
  lemma {:induction false} TrimStartSuffix(s: string)
    ensures TrimStart(s) == s[|s| - |TrimStart(s)|..]
  {
    if s != [] && IsJsSpace(s[0]) {
      TrimStartSuffix(s[1..]);
    }
  }

  /** `trimEnd` keeps a prefix of its input. */
  lemma {:induction false} TrimEndPrefix(s: string)
    ensures TrimEnd(s) == s[..|TrimEnd(s)|]
  {
    if s != [] && IsJsSpace(s[|s| - 1]) {
      TrimEndPrefix(s[..|s| - 1]);
    }
  }

  /** The trim is a contiguous part of its input. */
  lemma TrimInfix(s: string)
    ensures exists i :: InfixAt(Trim(s), s, i)
  {
    var t := TrimStart(s);
    TrimStartSuffix(s);
    TrimEndPrefix(t);
    assert InfixAt(Trim(s), s, |s| - |t|);
  }

  /** A string with no whitespace at either end is its own trim. */
  lemma TrimNoop(s: string)
    requires s == [] || (!IsJsSpace(s[0]) && !IsJsSpace(s[|s| - 1]))
    ensures Trim(s) == s
  {
  }

  /** Trimming twice is trimming once. */
  lemma TrimIdempotent(s: string)
    ensures Trim(Trim(s)) == Trim(s)
  {
    TrimNoop(Trim(s));
  }

  /** `line.trim()` is falsy exactly when the line holds only whitespace. */
  lemma TrimEmptyIffBlank(s: string)
    ensures Trim(s) == [] <==> forall i :: 0 <= i < |s| ==> IsJsSpace(s[i])
  {
    if Trim(s) == [] {
      assert TrimStart(s) == [];
    } else if forall i :: 0 <= i < |s| ==> IsJsSpace(s[i]) {
      assert TrimStart(s) == [] by { BlankTrimStart(s); }
    }
  }

  lemma {:induction false} BlankTrimStart(s: string)
    requires forall i :: 0 <= i < |s| ==> IsJsSpace(s[i])
    ensures TrimStart(s) == []
  {
    if s != [] { BlankTrimStart(s[1..]); }
  }

  // ---------------------------------------------------------------------
  // split and join
  // ---------------------------------------------------------------------

  /** `s.split(sep)` for a one-character separator, and `s.split(/[..]/)`
      for a character class: every character in `seps` ends a part. The
      empty string splits into one empty part. */
  function Split(s: string, seps: set<char>): (r: seq<string>)
    ensures |r| >= 1
    ensures forall k :: 0 <= k < |r| ==> forall j :: 0 <= j < |r[k]| ==> r[k][j] !in seps
    decreases |s|
  {
    if s == [] then [[]]
    else if s[0] in seps then [[]] + Split(s[1..], seps)
    else
      var rest := Split(s[1..], seps);
      [[s[0]] + rest[0]] + rest[1..]
  }

  /** `parts.join(sep)`, the inverse of `Split`. */
  function Join(parts: seq<string>, sep: char): string
    requires |parts| >= 1
  {
    if |parts| == 1 then parts[0] else parts[0] + [sep] + Join(parts[1..], sep)
  }

  /** How many characters of `s` belong to `seps`. */
  function CountIn(s: string, seps: set<char>): nat {
    if s == [] then 0 else (if s[0] in seps then 1 else 0) + CountIn(s[1..], seps)
  }

  /** Splitting and joining again on the same separator gives back the input. */
  lemma {:induction false} JoinSplit(s: string, c: char)
    ensures Join(Split(s, {c}), c) == s
  {
    if s == [] {
    } else if s[0] == c {
      JoinSplit(s[1..], c);
      assert s == [c] + s[1..];
    } else {
      JoinSplit(s[1..], c);
      var rest := Split(s[1..], {c});
      if |rest| == 1 {
      } else {
        assert Join(rest, c) == rest[0] + [c] + Join(rest[1..], c);
        assert s == [s[0]] + s[1..];
      }
    }
  }

  /** Joining parts free of the separator and splitting again gives back the parts. */
  lemma {:induction false} SplitJoin(parts: seq<string>, c: char)
    requires |parts| >= 1
    requires forall k :: 0 <= k < |parts| ==> c !in parts[k]
    ensures Split(Join(parts, c), {c}) == parts
    decreases |parts|, |parts[0]|
  {
    var p := parts[0];
    if p == [] {
      if |parts| > 1 {
        SplitJoin(parts[1..], c);
        assert Join(parts, c) == [c] + Join(parts[1..], c);
      }
    } else {
      var shorter := [p[1..]] + parts[1..];
      SplitJoin(shorter, c);
      JoinShorter(parts, c);
      assert p[0] != c by { assert p[0] in p; }
      SplitCons(p[0], Join(shorter, c), c);
      assert [p[0]] + p[1..] == p;
      assert parts == [p] + parts[1..];
    }
  }

  /** Joining parts whose first is not empty starts with that part's first
      character. */
  lemma JoinShorter(parts: seq<string>, c: char)
    requires |parts| >= 1 && parts[0] != []
    ensures Join(parts, c) == [parts[0][0]] + Join([parts[0][1..]] + parts[1..], c)
  {
    var p := parts[0];
    var shorter := [p[1..]] + parts[1..];
    assert p == [p[0]] + p[1..];
    if |parts| > 1 {
      assert shorter[1..] == parts[1..];
      assert Join(shorter, c) == p[1..] + [c] + Join(parts[1..], c);
    }
  }

  /** A first character that is not the separator joins the first part. */
  lemma SplitCons(x: char, s: string, c: char)
    requires x != c
    ensures Split([x] + s, {c}) == [[x] + Split(s, {c})[0]] + Split(s, {c})[1..]
  {
    assert ([x] + s)[1..] == s;
  }

  /** Text free of separators is one part. */
  lemma {:induction false} SplitNoSeparator(s: string, seps: set<char>)
    requires forall i :: 0 <= i < |s| ==> s[i] !in seps
    ensures Split(s, seps) == [s]
    decreases |s|
  {
    if s != [] {
      SplitNoSeparator(s[1..], seps);
      assert [s[0]] + s[1..] == s;
    }
  }

  /** A separator after separator-free text `a` ends the first part. */
  lemma {:induction false} SplitAtFirst(a: string, c: char, rest: string, seps: set<char>)
    requires c in seps
    requires forall i :: 0 <= i < |a| ==> a[i] !in seps
    ensures Split(a + [c] + rest, seps) == [a] + Split(rest, seps)
    decreases |a|
  {
    if a == [] {
      assert a + [c] + rest == [c] + rest;
      assert ([c] + rest)[1..] == rest;
    } else {
      SplitAtFirst(a[1..], c, rest, seps);
      assert (a + [c] + rest)[1..] == a[1..] + [c] + rest;
      assert [a[0]] + a[1..] == a;
    }
  }

  /** Three fields without the separator, joined by it, split back apart. */
  lemma SplitThree(a: string, b: string, c: string, sep: char)
    requires forall i :: 0 <= i < |a| ==> a[i] != sep
    requires forall i :: 0 <= i < |b| ==> b[i] != sep
    requires forall i :: 0 <= i < |c| ==> c[i] != sep
    ensures Split(a + [sep] + b + [sep] + c, {sep}) == [a, b, c]
  {
    assert a + [sep] + b + [sep] + c == a + [sep] + (b + [sep] + c);
    SplitAtFirst(a, sep, b + [sep] + c, {sep});
    SplitAtFirst(b, sep, c, {sep});
    SplitNoSeparator(c, {sep});
  }

  /** The number of parts is one more than the number of separators. */
  lemma {:induction false} SplitCount(s: string, seps: set<char>)
    ensures |Split(s, seps)| == CountIn(s, seps) + 1
    decreases |s|
  {
    if s != [] { SplitCount(s[1..], seps); }
  }

  // ---------------------------------------------------------------------
  // Decimal digits, parseInt and number-to-string
  // ---------------------------------------------------------------------

  predicate IsDigit(c: char) { '0' <= c <= '9' }

  predicate AllDigits(s: string) { forall i :: 0 <= i < |s| ==> IsDigit(s[i]) }

  function DigitValue(c: char): nat
    requires IsDigit(c)
  {
    (c as int - '0' as int) as nat
  }

  function DigitChar(d: nat): (c: char)
    requires d < 10
    ensures IsDigit(c) && DigitValue(c) == d
  {
    ('0' as int + d) as char
  }

  /** The value of a string of decimal digits, most significant first. */
  function DigitsValue(s: string): nat
    requires AllDigits(s)
  {
    if s == [] then 0 else DigitsValue(s[..|s| - 1]) * 10 + DigitValue(s[|s| - 1])
  }

  /** The longest prefix of decimal digits. */
  function DigitPrefix(s: string): (r: string)
    ensures |r| <= |s| && AllDigits(r)
    ensures forall i :: 0 <= i < |r| ==> r[i] == s[i]
    ensures |r| < |s| ==> !IsDigit(s[|r|])
  {
    if s != [] && IsDigit(s[0]) then [s[0]] + DigitPrefix(s[1..]) else []
  }

  /** `parseInt(s, 10)` (section 19.2.5 of ECMA-262): leading whitespace is
      skipped, one `+` or `-` is taken as the sign, and the longest run of
      digits after it is the value; with no digit the result is NaN (`None`).
      `parseInt(undefined)` reads the text "undefined" and is NaN too. */
  function ParseInt(s: string): Option<int> {
    ParseSigned(TrimStart(s))
  }

  /** What `parseInt` does once leading whitespace is gone. */
  function ParseSigned(t: string): Option<int> {
    var negative := t != [] && t[0] == '-';
    var body := if t != [] && (t[0] == '-' || t[0] == '+') then t[1..] else t;
    var z := DigitPrefix(body);
    if z == [] then None
    else if negative then Some(-(DigitsValue(z) as int))
    else Some(DigitsValue(z))
  }

  /** The digits of a natural number, as `${n}` writes them. */
  function NatToString(n: nat): (r: string)
    ensures |r| >= 1 && AllDigits(r)
    ensures DigitsValue(r) == n
    ensures r[0] == '0' ==> n == 0
  {
    if n < 10 then [DigitChar(n)]
    else
      var p := NatToString(n / 10);
      var r := p + [DigitChar(n % 10)];
      assert r[..|r| - 1] == p;
      r
  }

  /** `${n}` (and `n.toString()`) for an integer number. */
  function IntToString(n: int): (r: string)
    ensures |r| >= 1
  {
    if n < 0 then "-" + NatToString(-n) else NatToString(n)
  }

  /** `${n}` is an optional minus sign followed by digits. */
  lemma IntToStringShape(n: int)
    ensures forall i :: 0 <= i < |IntToString(n)| ==> IntToString(n)[i] == '-' || IsDigit(IntToString(n)[i])
    ensures IsDigit(IntToString(n)[|IntToString(n)| - 1])
    ensures IntToString(n)[0] == '-' || IsDigit(IntToString(n)[0])
  {
    var d := NatToString(if n < 0 then -n else n);
    assert IntToString(n) == (if n < 0 then "-" + d else d);
    assert IsDigit(d[|d| - 1]);
    forall i | 0 <= i < |IntToString(n)| ensures IntToString(n)[i] == '-' || IsDigit(IntToString(n)[i]) {
      if n < 0 && i > 0 {
        assert IntToString(n)[i] == d[i - 1];
      }
    }
  }

  /** Leading whitespace does not change what `parseInt` reads. */
  lemma {:induction false} ParseIntSkipsSpace(w: string, s: string)
    requires forall i :: 0 <= i < |w| ==> IsJsSpace(w[i])
    ensures ParseInt(w + s) == ParseInt(s)
  {
    TrimStartSkipsSpace(w, s);
  }

  lemma {:induction false} TrimStartSkipsSpace(w: string, s: string)
    requires forall i :: 0 <= i < |w| ==> IsJsSpace(w[i])
    ensures TrimStart(w + s) == TrimStart(s)
  {
    if w == [] {
      assert w + s == s;
    } else {
      assert (w + s)[0] == w[0];
      assert (w + s)[1..] == w[1..] + s;
      TrimStartSkipsSpace(w[1..], s);
    }
  }

  /** `DigitPrefix` of digits followed by a non-digit stops at the non-digit. */
  lemma {:induction false} DigitPrefixOfDigits(d: string, rest: string)
    requires AllDigits(d)
    requires rest == [] || !IsDigit(rest[0])
    ensures DigitPrefix(d + rest) == d
  {
    if d != [] {
      assert (d + rest)[1..] == d[1..] + rest;
      DigitPrefixOfDigits(d[1..], rest);
    }
  }

  /** `parseInt` reads back what `${n}` writes, whatever non-digit text
      follows the number. */
  lemma ParseIntOfToString(n: int, rest: string)
    requires rest == [] || !IsDigit(rest[0])
    ensures ParseInt(IntToString(n) + rest) == Some(n)
  {
    if n < 0 {
      var d := NatToString(-n);
      assert IntToString(n) + rest == "-" + (d + rest);
      ParseIntOfNegDigits(d, rest);
    } else {
      ParseIntOfDigits(NatToString(n), rest);
    }
  }

  lemma ParseIntOfDigits(d: string, rest: string)
    requires d != [] && AllDigits(d)
    requires rest == [] || !IsDigit(rest[0])
    ensures ParseInt(d + rest) == Some(DigitsValue(d) as int)
  {
    DigitPrefixOfDigits(d, rest);
    assert (d + rest)[0] == d[0];
    NoLeadingSpace(d + rest);
    ParseUnsigned(d + rest);
  }

  lemma ParseIntOfNegDigits(d: string, rest: string)
    requires d != [] && AllDigits(d)
    requires rest == [] || !IsDigit(rest[0])
    ensures ParseInt("-" + (d + rest)) == Some(-(DigitsValue(d) as int))
  {
    DigitPrefixOfDigits(d, rest);
    ParseMinus(d + rest, d);
  }

  lemma ParseMinus(t: string, d: string)
    requires d != [] && DigitPrefix(t) == d
    ensures ParseInt("-" + t) == Some(-(DigitsValue(d) as int))
  {
    NoLeadingSpace("-" + t);
    ParseNegative(t);
  }

  lemma NoLeadingSpace(s: string)
    requires s != [] && (s[0] == '-' || IsDigit(s[0]))
    ensures ParseInt(s) == ParseSigned(s)
  {
    assert !IsJsSpace(s[0]);
    assert TrimStart(s) == s;
  }

  lemma ParseNegative(t: string)
    requires DigitPrefix(t) != []
    ensures ParseSigned("-" + t) == Some(-(DigitsValue(DigitPrefix(t)) as int))
  {
    assert ("-" + t)[1..] == t;
  }

  lemma ParseUnsigned(t: string)
    requires t != [] && IsDigit(t[0])
    ensures ParseSigned(t) == Some(DigitsValue(DigitPrefix(t)) as int)
  {
  }

  /** Text with no digit at all is NaN to `parseInt`. */
  lemma ParseIntNoDigit(s: string)
    requires forall i :: 0 <= i < |s| ==> !IsDigit(s[i])
    ensures ParseInt(s) == None
  {
    var t := TrimStart(s);
    TrimStartSuffix(s);
    var body := if t != [] && (t[0] == '-' || t[0] == '+') then t[1..] else t;
    if body != [] {
      assert body[0] == s[|s| - |body|];
    }
    assert DigitPrefix(body) == [];
  }

  // ---------------------------------------------------------------------
  // padStart, includes, lower case, replace
  // ---------------------------------------------------------------------

  /** `s.padStart(2, '0')`. */
  function PadStart2(s: string): (r: string)
    ensures |s| >= 2 ==> r == s
    ensures |s| < 2 ==> |r| == 2 && r[2 - |s|..] == s && forall i :: 0 <= i < 2 - |s| ==> r[i] == '0'
  {
    if |s| >= 2 then s else if |s| == 1 then "0" + s else "00"
  }

  predicate IsPrefix(p: string, s: string) { |p| <= |s| && s[..|p|] == p }

  /** `s.includes(sub)`. */
  predicate Contains(s: string, sub: string)
    decreases |s|
  {
    IsPrefix(sub, s) || (s != [] && Contains(s[1..], sub))
  }

  /** A string contains every piece of a concatenation it is made of. */
  lemma {:induction false} ContainsMiddle(a: string, b: string, c: string)
    ensures Contains(a + b + c, b)
    decreases |a|
  {
    if a == [] {
      assert (a + b + c)[..|b|] == b;
    } else {
      assert (a + b + c)[1..] == a[1..] + b + c;
      ContainsMiddle(a[1..], b, c);
    }
  }

  /** A five-piece concatenation contains its first, third and fifth
      pieces. */
  lemma ContainsOddPieces(a: string, b: string, c: string, d: string, e: string)
    ensures Contains(a + b + c + d + e, a)
    ensures Contains(a + b + c + d + e, c)
    ensures Contains(a + b + c + d + e, e)
  {
    ContainsMiddle([], a, b + c + d + e);
    assert a + b + c + d + e == [] + a + (b + c + d + e);
    ContainsMiddle(a + b, c, d + e);
    assert a + b + c + d + e == a + b + c + (d + e);
    ContainsMiddle(a + b + c + d, e, []);
    assert a + b + c + d + e == a + b + c + d + e + [];
  }

  /** Including a one-character string is membership of that character. */
  lemma {:induction false} ContainsChar(s: string, c: char)
    ensures Contains(s, [c]) <==> c in s
    decreases |s|
  {
    if s != [] {
      ContainsChar(s[1..], c);
      assert s == [s[0]] + s[1..];
    }
  }

  /** `includes` really finds `sub` at some position. */
  lemma {:induction false} ContainsAt(s: string, sub: string)
    requires Contains(s, sub)
    ensures exists i :: InfixAt(sub, s, i)
    decreases |s|
  {
    if IsPrefix(sub, s) {
      assert InfixAt(sub, s, 0);
    } else {
      ContainsAt(s[1..], sub);
      var i :| InfixAt(sub, s[1..], i);
      assert s[1..][i..i + |sub|] == s[i + 1..i + 1 + |sub|];
      assert InfixAt(sub, s, i + 1);
    }
  }

  /** `toLowerCase` on the letters A to Z; every other character is kept. For
      the header keywords of the receipt CSV reader this gives the same
      `includes` answers as full Unicode lower-casing. */
  function ToLowerAscii(s: string): (r: string)
    ensures |r| == |s|
    ensures forall i :: 0 <= i < |s| ==>
      r[i] == (if 'A' <= s[i] <= 'Z' then (s[i] as int + 32) as char else s[i])
  {
    if s == [] then []
    else [if 'A' <= s[0] <= 'Z' then (s[0] as int + 32) as char else s[0]] + ToLowerAscii(s[1..])
  }

  /** `s.replace(/x/g, y)` for one character `x`. */
  function ReplaceChar(s: string, x: char, y: char): (r: string)
    ensures |r| == |s|
    ensures forall i :: 0 <= i < |s| ==> r[i] == (if s[i] == x then y else s[i])
  {
    if s == [] then [] else [if s[0] == x then y else s[0]] + ReplaceChar(s[1..], x, y)
  }

  function NotIn(drop: set<char>): char -> bool {
    c => c !in drop
  }

  /** `s.replace(/[..]/g, '')`: every character of `drop` removed, the
      others kept in order. */
  function RemoveChars(s: string, drop: set<char>): (r: string)
    ensures forall i :: 0 <= i < |r| ==> r[i] !in drop
    ensures forall i :: 0 <= i < |s| ==> (s[i] in r <==> s[i] !in drop)
  {
    Filter(s, NotIn(drop))
  }

  /** The removal works character by character: removing from a
      concatenation is removing from each part, a dropped character
      vanishes and any other character stays. Together these fix the
      result for every text. */
  lemma RemoveCharsPieces(a: string, b: string, c: char, drop: set<char>)
    ensures RemoveChars(a + b, drop) == RemoveChars(a, drop) + RemoveChars(b, drop)
    ensures RemoveChars([c], drop) == if c in drop then [] else [c]
  {
    FilterConcat(a, b, NotIn(drop));
    FilterCons(c, [], NotIn(drop));
    assert [c] + [] == [c];
  }

  /** Removing characters that do not occur changes nothing. */
  lemma RemoveCharsNoop(s: string, drop: set<char>)
    requires forall i :: 0 <= i < |s| ==> s[i] !in drop
    ensures RemoveChars(s, drop) == s
  {
    FilterAll(s, NotIn(drop));
  }

  predicate IsQuote(c: char) { c == '"' || c == '\'' }

  /** `s.replace(/^["']|["']$/g, '')`: one quote character is removed from
      the start and one from the end; a lone quote becomes empty. */
  function StripQuotes(s: string): (r: string)
    ensures |r| <= |s|
    ensures s != [] && !IsQuote(s[0]) && !IsQuote(s[|s| - 1]) ==> r == s
    ensures |s| >= 2 && IsQuote(s[0]) && IsQuote(s[|s| - 1]) ==> r == s[1..|s| - 1]
  {
    var t := if s != [] && IsQuote(s[0]) then s[1..] else s;
    if t != [] && IsQuote(t[|t| - 1]) then t[..|t| - 1] else t
  }

  /** De-quoting keeps a contiguous part of its input. */
  lemma StripQuotesInfix(s: string)
    ensures exists i :: InfixAt(StripQuotes(s), s, i)
  {
    var t := if s != [] && IsQuote(s[0]) then s[1..] else s;
    assert InfixAt(StripQuotes(s), s, |s| - |t|);
  }

  // ---------------------------------------------------------------------
  // SQLite's comparison of TEXT values
  // ---------------------------------------------------------------------

  /** `a < b` for two TEXT values under SQLite's BINARY collation: the first
      differing character decides, and a proper prefix is smaller. UTF-8
      byte order agrees with code point order, so characters compare by
      code point. */
  predicate LexLess(a: string, b: string)
    decreases |a|
  {
    if a == [] then b != []
    else if b == [] then false
    else if a[0] != b[0] then a[0] < b[0]
    else LexLess(a[1..], b[1..])
  }

  lemma {:induction false} LexLessIrreflexive(a: string)
    ensures !LexLess(a, a)
  {
    if a != [] { LexLessIrreflexive(a[1..]); }
  }

  lemma {:induction false} LexLessTransitive(a: string, b: string, c: string)
    requires LexLess(a, b) && LexLess(b, c)
    ensures LexLess(a, c)
    decreases |a|
  {
    if a != [] && b != [] && c != [] && a[0] == b[0] && b[0] == c[0] {
      LexLessTransitive(a[1..], b[1..], c[1..]);
    }
  }

  /** Any two different texts are ordered one way or the other. */
  lemma {:induction false} LexLessTotal(a: string, b: string)
    requires a != b
    ensures LexLess(a, b) || LexLess(b, a)
    decreases |a|
  {
    if a != [] && b != [] && a[0] == b[0] {
      assert a == [a[0]] + a[1..] && b == [b[0]] + b[1..];
      LexLessTotal(a[1..], b[1..]);
    }
  }

  /** A common prefix does not change the comparison. */
  lemma {:induction false} LexLessCommonPrefix(p: string, a: string, b: string)
    ensures LexLess(p + a, p + b) == LexLess(a, b)
    decreases |p|
  {
    if p == [] {
      assert p + a == a && p + b == b;
    } else {
      assert (p + a)[0] == p[0] == (p + b)[0];
      assert (p + a)[1..] == p[1..] + a && (p + b)[1..] == p[1..] + b;
      assert LexLess(p + a, p + b) == LexLess(p[1..] + a, p[1..] + b);
      LexLessCommonPrefix(p[1..], a, b);
    }
  }

  /** Between prefixes of equal length that differ, the prefixes decide. */
  lemma {:induction false} LexLessDifferentHeads(a: string, a': string, b: string, b': string)
    requires |a| == |b| && a != b
    ensures LexLess(a + a', b + b') == LexLess(a, b)
    decreases |a|
  {
    assert a != [];
    if a[0] == b[0] {
      assert a[1..] != b[1..] by { assert a == [a[0]] + a[1..] && b == [b[0]] + b[1..]; }
      assert (a + a')[1..] == a[1..] + a' && (b + b')[1..] == b[1..] + b';
      LexLessDifferentHeads(a[1..], a', b[1..], b');
    }
  }
}
