/** Character classes, trimming, splitting and decimal conversion: the small
    pieces of JavaScript and Python string behaviour the rest of the model
    relies on. Strings are `seq<char>`; case mapping is ASCII-only. */
module Text {
  import opened Wrappers

  predicate IsDigit(c: char) { '0' <= c <= '9' }

  predicate IsAsciiUpper(c: char) { 'A' <= c <= 'Z' }

  /** The class `[a-z0-9]` of the slug regular expressions. */
  predicate IsLowerAlnum(c: char) { 'a' <= c <= 'z' || IsDigit(c) }

  /** `toLowerCase` / `lower()` restricted to ASCII letters. */
  function LowerChar(c: char): (r: char)
    ensures IsAsciiUpper(c) ==> r as int == c as int + 32
    ensures !IsAsciiUpper(c) ==> r == c
  {
    if IsAsciiUpper(c) then (c as int + 32) as char else c
  }

  function Lower(s: string): (r: string)
    ensures |r| == |s|
  {
    if |s| == 0 then [] else [LowerChar(s[0])] + Lower(s[1..])
  }

  lemma {:induction false} LowerAppend(a: string, b: string)
    ensures Lower(a + b) == Lower(a) + Lower(b)
  {
    if |a| == 0 {
      assert a + b == b;
    } else {
      assert (a + b)[1..] == a[1..] + b;
      LowerAppend(a[1..], b);
    }
  }

  /** Lower-casing leaves a string without ASCII capitals unchanged. */
  lemma {:induction false} LowerNoop(s: string)
    requires forall i :: 0 <= i < |s| ==> !IsAsciiUpper(s[i])
    ensures Lower(s) == s
  {
    if |s| > 0 {
      LowerNoop(s[1..]);
    }
  }

  /** The two whitespace sets the model meets: ECMAScript `String.prototype.trim`
      and Python `str.strip()` with no argument (`str.isspace`). */
  datatype SpaceKind = JsSpace | PySpace

  predicate IsSpace(c: char, kind: SpaceKind) {
    || ('\t' <= c <= '\r') || c == ' ' || c == '\U{00A0}' || c == '\U{1680}'
    || ('\U{2000}' <= c <= '\U{200A}') || c == '\U{2028}' || c == '\U{2029}'
    || c == '\U{202F}' || c == '\U{205F}' || c == '\U{3000}'
    || (kind == JsSpace && c == '\U{FEFF}')
    || (kind == PySpace && ('\U{001C}' <= c <= '\U{001F}' || c == '\U{0085}'))
  }

  predicate NoSpace(s: string, kind: SpaceKind) {
    forall i :: 0 <= i < |s| ==> !IsSpace(s[i], kind)
  }

  function TrimLeft(s: string, kind: SpaceKind): (r: string)
    ensures |r| <= |s|
    ensures |r| > 0 ==> !IsSpace(r[0], kind)
  {
    if |s| > 0 && IsSpace(s[0], kind) then TrimLeft(s[1..], kind) else s
  }

  function TrimRight(s: string, kind: SpaceKind): (r: string)
    ensures r <= s
    ensures |r| > 0 ==> !IsSpace(r[|r| - 1], kind)
  {
    if |s| > 0 && IsSpace(s[|s| - 1], kind) then TrimRight(s[..|s| - 1], kind) else s
  }

  /** `trim()` / `strip()`: drop leading and trailing whitespace. */
  function Trim(s: string, kind: SpaceKind): (r: string)
    ensures |r| == 0 || (!IsSpace(r[0], kind) && !IsSpace(r[|r| - 1], kind))
  {
    TrimRight(TrimLeft(s, kind), kind)
  }

  /** Everything `Trim` removes is whitespace: the input is the result
      framed by two whitespace-only strings. */
  lemma TrimFrames(s: string, kind: SpaceKind) returns (pre: string, post: string)
    ensures s == pre + Trim(s, kind) + post
    ensures forall i :: 0 <= i < |pre| ==> IsSpace(pre[i], kind)
    ensures forall i :: 0 <= i < |post| ==> IsSpace(post[i], kind)
  {
    pre := LeftSpace(s, kind);
    var mid := TrimLeft(s, kind);
    post := RightSpace(mid, kind);
    assert s == pre + mid;
    assert mid == Trim(s, kind) + post;
    assert s == pre + (Trim(s, kind) + post);
  }

  lemma LeftSpace(s: string, kind: SpaceKind) returns (pre: string)
    ensures s == pre + TrimLeft(s, kind)
    ensures forall i :: 0 <= i < |pre| ==> IsSpace(pre[i], kind)
  {
    if |s| > 0 && IsSpace(s[0], kind) {
      var p := LeftSpace(s[1..], kind);
      pre := [s[0]] + p;
    } else {
      pre := [];
    }
  }

  lemma RightSpace(s: string, kind: SpaceKind) returns (post: string)
    ensures s == TrimRight(s, kind) + post
    ensures forall i :: 0 <= i < |post| ==> IsSpace(post[i], kind)
  {
    if |s| > 0 && IsSpace(s[|s| - 1], kind) {
      var p := RightSpace(s[..|s| - 1], kind);
      post := p + [s[|s| - 1]];
    } else {
      post := [];
    }
  }

  /** A string that neither starts nor ends with whitespace is its own trim. */
  lemma TrimUnchanged(s: string, kind: SpaceKind)
    requires |s| == 0 || (!IsSpace(s[0], kind) && !IsSpace(s[|s| - 1], kind))
    ensures Trim(s, kind) == s
  {
    assert TrimLeft(s, kind) == s;
  }

  /** Trimming twice is trimming once. */
  lemma TrimIdempotent(s: string, kind: SpaceKind)
    ensures Trim(Trim(s, kind), kind) == Trim(s, kind)
  {
    TrimUnchanged(Trim(s, kind), kind);
  }

  /** JavaScript and Python truthiness of a nullable string: present and non-empty. */
  predicate Truthy(o: Option<string>) {
    o.Some? && o.value != ""
  }

  /** `x || null` / `x or None` on a nullable string: falsy values become null. */
  function OrNull(o: Option<string>): (r: Option<string>)
    ensures Truthy(o) ==> r == o
    ensures !Truthy(o) ==> r == None
  {
    if Truthy(o) then o else None
  }

  /** `a || b` / `a or b` on nullable strings. */
  function OrElse(a: Option<string>, b: Option<string>): (r: Option<string>)
    ensures Truthy(a) ==> r == a
    ensures !Truthy(a) ==> r == b
  {
    if Truthy(a) then a else b
  }

  // ---------------------------------------------------------------------
  // Splitting and joining on a single separator character
  // ---------------------------------------------------------------------

  function CountChar(s: string, c: char): nat {
    if |s| == 0 then 0 else (if s[0] == c then 1 else 0) + CountChar(s[1..], c)
  }

  /** `arr.join(sep)` / `sep.join(arr)`. */
  function Join(parts: seq<string>, sep: char): string {
    if |parts| == 0 then ""
    else if |parts| == 1 then parts[0]
    else parts[0] + [sep] + Join(parts[1..], sep)
  }

  /** `s.split(sep)` (JavaScript and Python agree on a one-character separator):
      the pieces between separators, including empty ones. */
  function Split(s: string, sep: char): (parts: seq<string>)
    ensures |parts| == CountChar(s, sep) + 1
  {
    if |s| == 0 then [""]
    else
      var rest := Split(s[1..], sep);
      if s[0] == sep then [""] + rest
      else [[s[0]] + rest[0]] + rest[1..]
  }

  /** The pieces hold no separator, and joining them restores the input. */
  lemma {:induction false} SplitParts(s: string, sep: char)
    ensures forall i :: 0 <= i < |Split(s, sep)| ==> sep !in Split(s, sep)[i]
    ensures Join(Split(s, sep), sep) == s
  {
    if |s| > 0 {
      var rest := Split(s[1..], sep);
      SplitParts(s[1..], sep);
      if s[0] == sep {
        assert s == [sep] + s[1..];
        assert ([""] + rest)[1..] == rest;
      } else {
        var parts := [[s[0]] + rest[0]] + rest[1..];
        assert parts[1..] == rest[1..];
        if |rest| > 1 {
          assert Join(rest, sep) == rest[0] + [sep] + Join(rest[1..], sep);
        }
        assert s == [s[0]] + s[1..];
      }
    }
  }

  /** A string without the separator splits into itself. */
  lemma {:induction false} SplitNoSep(s: string, sep: char)
    requires sep !in s
    ensures Split(s, sep) == [s]
  {
    if |s| > 0 {
      assert sep !in s[1..];
      SplitNoSep(s[1..], sep);
      assert s == [s[0]] + s[1..];
    }
  }

  /** Splitting distributes over a separator placed between two strings. */
  lemma {:induction false} SplitAround(x: string, y: string, sep: char)
    ensures Split(x + [sep] + y, sep) == Split(x, sep) + Split(y, sep)
  {
    if |x| == 0 {
      assert x + [sep] + y == [sep] + y;
      assert ([sep] + y)[1..] == y;
    } else {
      assert (x + [sep] + y)[1..] == x[1..] + [sep] + y;
      SplitAround(x[1..], y, sep);
    }
  }

  /** `Split` inverts `Join` when no piece holds the separator. */
  lemma {:induction false} SplitJoin(parts: seq<string>, sep: char)
    requires |parts| >= 1
    requires forall i :: 0 <= i < |parts| ==> sep !in parts[i]
    ensures Split(Join(parts, sep), sep) == parts
  {
    if |parts| == 1 {
      SplitNoSep(parts[0], sep);
    } else {
      SplitJoin(parts[1..], sep);
      SplitAround(parts[0], Join(parts[1..], sep), sep);
      SplitNoSep(parts[0], sep);
    }
  }

  lemma {:induction false} JoinAppend(a: seq<string>, b: seq<string>, sep: char)
    requires |a| >= 1 && |b| >= 1
    ensures Join(a + b, sep) == Join(a, sep) + [sep] + Join(b, sep)
  {
    if |a| == 1 {
      assert (a + b)[1..] == b;
    } else {
      assert (a + b)[1..] == a[1..] + b;
      JoinAppend(a[1..], b, sep);
    }
  }

  /** `parts.join(sep)` with a separator string, as in `", ".join(parts)`. */
  function JoinWith(parts: seq<string>, sep: string): string {
    if |parts| == 0 then ""
    else if |parts| == 1 then parts[0]
    else parts[0] + sep + JoinWith(parts[1..], sep)
  }

  /** The present, non-empty strings of a list, in order
      (`.filter(Boolean)` / `[p for p in xs if p]`). */
  function TruthyValues(xs: seq<Option<string>>): (r: seq<string>)
    ensures |r| <= |xs|
    ensures forall i :: 0 <= i < |r| ==> r[i] != ""
    ensures |r| == |xs| <==> forall i :: 0 <= i < |xs| ==> Truthy(xs[i])
  {
    if |xs| == 0 then []
    else TruthyPart(xs[0]) + TruthyValues(xs[1..])
  }

  /** One entry's contribution: its value when truthy, nothing otherwise. */
  function TruthyPart(x: Option<string>): seq<string> {
    if Truthy(x) then [x.value] else []
  }

  /** A one-entry list keeps its value exactly when it is truthy. */
  lemma TruthyValuesSingle(x: Option<string>)
    ensures Truthy(x) ==> TruthyValues([x]) == [x.value]
    ensures !Truthy(x) ==> TruthyValues([x]) == []
  {
    assert [x][1..] == [];
  }

  /** Filtering a concatenation filters each part and keeps their order. */
  lemma {:induction false} TruthyValuesAppend(a: seq<Option<string>>, b: seq<Option<string>>)
    ensures TruthyValues(a + b) == TruthyValues(a) + TruthyValues(b)
  {
    if |a| > 0 {
      assert (a + b)[1..] == a[1..] + b;
      TruthyValuesAppend(a[1..], b);
      assert (a + b)[0] == a[0];
    } else {
      assert a + b == b;
    }
  }

  // ---------------------------------------------------------------------
  // Decimal numerals
  // ---------------------------------------------------------------------

  /** The regular expression `^\d+$`. */
  predicate AllDigits(s: string) {
    |s| > 0 && forall i :: 0 <= i < |s| ==> IsDigit(s[i])
  }

  function DigitChar(d: nat): char
    requires d < 10
  {
    ('0' as int + d) as char
  }

  /** The value of a string of decimal digits (`parseInt(s, 10)` on `^\d+$`). */
  function DigitsValue(s: string): nat
    requires forall i :: 0 <= i < |s| ==> IsDigit(s[i])
  {
    if |s| == 0 then 0
    else
      assert IsDigit(s[|s| - 1]);
      DigitsValue(s[..|s| - 1]) * 10 + (s[|s| - 1] as int - '0' as int)
  }

  /** Template-literal formatting of a non-negative integer (`${n}`, `f"{n}"`). */
  function NatToString(n: nat): (s: string)
    ensures AllDigits(s)
    ensures DigitsValue(s) == n
  {
    if n < 10 then [DigitChar(n)]
    else
      var s := NatToString(n / 10) + [DigitChar(n % 10)];
      assert s[..|s| - 1] == NatToString(n / 10);
      s
  }

  lemma NatToStringInjective(m: nat, n: nat)
    requires NatToString(m) == NatToString(n)
    ensures m == n
  {
  }

  // ---------------------------------------------------------------------
  // JavaScript Number.parseInt(s, 10)
  // ---------------------------------------------------------------------

  /** The longest prefix of `s` made of decimal digits. */
  function DigitPrefix(s: string): (r: string)
    ensures r <= s
    ensures forall i :: 0 <= i < |r| ==> IsDigit(r[i])
    ensures |r| < |s| ==> !IsDigit(s[|r|])
  {
    if |s| > 0 && IsDigit(s[0]) then [s[0]] + DigitPrefix(s[1..]) else []
  }

  /** `Number.parseInt(s, 10)`: skip leading whitespace, read an optional sign
      and then the longest run of digits; `None` stands for `NaN` (no digit). */
  function ParseIntJs(s: string): (r: Option<int>)
    ensures r.None? <==> DigitPrefix(UnsignedPart(TrimLeft(s, JsSpace))) == ""
  {
    var t := TrimLeft(s, JsSpace);
    var negative := |t| > 0 && t[0] == '-';
    var digits := DigitPrefix(UnsignedPart(t));
    if |digits| == 0 then None
    else if negative then Some(-(DigitsValue(digits) as int))
    else Some(DigitsValue(digits))
  }

  function UnsignedPart(t: string): string {
    if |t| > 0 && (t[0] == '-' || t[0] == '+') then t[1..] else t
  }

  lemma {:induction false} DigitPrefixOfNumeral(digits: string, rest: string)
    requires forall i :: 0 <= i < |digits| ==> IsDigit(digits[i])
    requires rest == [] || !IsDigit(rest[0])
    ensures DigitPrefix(digits + rest) == digits
  {
    if |digits| > 0 {
      assert (digits + rest)[1..] == digits[1..] + rest;
      DigitPrefixOfNumeral(digits[1..], rest);
    } else {
      assert digits + rest == rest;
    }
  }

  /** `parseInt` reads back a formatted number, whatever non-digit text follows it. */
  lemma ParseIntOfNumeral(n: nat, rest: string)
    requires rest == [] || !IsDigit(rest[0])
    ensures ParseIntJs(NatToString(n) + rest) == Some(n)
  {
    var s := NatToString(n) + rest;
    assert s[0] == NatToString(n)[0];
    DigitPrefixOfNumeral(NatToString(n), rest);
  }

  /** Without a minus sign in the text, `parseInt` yields no negative number. */
  lemma ParseIntNonNegative(s: string)
    requires '-' !in s
    ensures ParseIntJs(s).Some? ==> ParseIntJs(s).value >= 0
  {
    var pre := LeftSpace(s, JsSpace);
    var t := TrimLeft(s, JsSpace);
    if |t| > 0 {
      assert t[0] == s[|pre|];
    }
  }
}
