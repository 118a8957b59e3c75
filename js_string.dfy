/** The ECMAScript string operations the handlers and components rely on:
    the `\s` character class, case mapping, `includes`, `startsWith`,
    `split` on one character and `trim`. */
module JsString {
  import opened Wrappers

  /** The characters matched by `\s` in an ECMAScript regular expression and
      removed by `String.prototype.trim`: WhiteSpace and LineTerminator. */
  predicate IsSpace(c: char)
  {
    || c == ' ' || c == '\t' || c == '\n' || c == '\r'
    || c == '\U{000B}' || c == '\U{000C}' || c == '\U{00A0}' || c == '\U{1680}'
    || ('\U{2000}' <= c <= '\U{200A}')
    || c == '\U{2028}' || c == '\U{2029}' || c == '\U{202F}' || c == '\U{205F}'
    || c == '\U{3000}' || c == '\U{FEFF}'
  }

  function LowerChar(c: char): char
  {
    if 'A' <= c <= 'Z' then (c as int + 32) as char else c
  }

  function UpperChar(c: char): char
  {
    if 'a' <= c <= 'z' then (c as int - 32) as char else c
  }

  /** `toLowerCase`, restricted to the ASCII letters. */
  function ToLower(s: string): (r: string)
    ensures |r| == |s|
    ensures forall i :: 0 <= i < |s| ==> r[i] == LowerChar(s[i])
  {
    if s == [] then [] else [LowerChar(s[0])] + ToLower(s[1..])
  }

  /** `toUpperCase`, restricted to the ASCII letters. */
  function ToUpper(s: string): (r: string)
    ensures |r| == |s|
    ensures forall i :: 0 <= i < |s| ==> r[i] == UpperChar(s[i])
  {
    if s == [] then [] else [UpperChar(s[0])] + ToUpper(s[1..])
  }

  predicate StartsWith(s: string, prefix: string)
  {
    |prefix| <= |s| && s[..|prefix|] == prefix
  }

  /** `s` holds `sub` at position `i`. */
  ghost predicate OccursAt(s: string, sub: string, i: int)
  {
    0 <= i && i + |sub| <= |s| && s[i..i + |sub|] == sub
  }

  /** `s.includes(sub)`, and equally an unanchored regular-expression test
      for the literal `sub`: scans every start position from the left. */
  function Includes(s: string, sub: string): bool
  {
    if StartsWith(s, sub) then true
    else if s == [] then false
    else Includes(s[1..], sub)
  }

  lemma {:induction false} IncludesIff(s: string, sub: string)
    ensures Includes(s, sub) <==> exists i :: OccursAt(s, sub, i)
  {
    if StartsWith(s, sub) {
      assert OccursAt(s, sub, 0);
    } else if s == [] {
      assert forall i :: !OccursAt(s, sub, i);
    } else {
      IncludesIff(s[1..], sub);
      if Includes(s[1..], sub) {
        var i :| OccursAt(s[1..], sub, i);
        assert s[i + 1..i + 1 + |sub|] == s[1..][i..i + |sub|];
        assert OccursAt(s, sub, i + 1);
      } else {
        forall i | OccursAt(s, sub, i)
          ensures false
        {
          if i > 0 {
            assert s[1..][i - 1..i - 1 + |sub|] == s[i..i + |sub|];
            assert OccursAt(s[1..], sub, i - 1);
          }
        }
      }
    }
  }

  lemma IncludesAt(s: string, sub: string, i: nat)
    requires i + |sub| <= |s| && s[i..i + |sub|] == sub
    ensures Includes(s, sub)
  {
    IncludesIff(s, sub);
    assert OccursAt(s, sub, i);
  }

  /** A text lacking one of the characters of `sub` does not include `sub`. */
  lemma MissingCharNotIncluded(s: string, sub: string, c: char)
    requires c in sub && c !in s
    ensures !Includes(s, sub)
  {
    IncludesIff(s, sub);
  }

  /** A text still includes `sub` once more text is appended. */
  lemma IncludesAppend(a: string, b: string, sub: string)
    requires Includes(a, sub)
    ensures Includes(a + b, sub)
  {
    IncludesIff(a, sub);
    var i :| OccursAt(a, sub, i);
    assert (a + b)[i..i + |sub|] == a[i..i + |sub|];
    IncludesAt(a + b, sub, i);
  }

  /** Case mapping works character by character, so it distributes over concatenation. */
  lemma ToLowerAppend(a: string, b: string)
    ensures ToLower(a + b) == ToLower(a) + ToLower(b)
  {
    var l, r := ToLower(a + b), ToLower(a) + ToLower(b);
    assert |l| == |r|;
    forall i | 0 <= i < |l|
      ensures l[i] == r[i]
    {
      if i < |a| {
        assert (a + b)[i] == a[i];
      } else {
        assert (a + b)[i] == b[i - |a|];
      }
    }
  }

  /** The UTF-16 code units a character takes: two (a surrogate pair) for
      a character outside the Basic Multilingual Plane, one otherwise. */
  function CodeUnits(c: char): nat
  {
    if c as int >= 0x1_0000 then 2 else 1
  }

  /** `s.length`, which counts UTF-16 code units rather than characters. */
  function Utf16Length(s: string): (n: nat)
    ensures |s| <= n <= 2 * |s|
  {
    if s == [] then 0 else CodeUnits(s[0]) + Utf16Length(s[1..])
  }

  lemma {:induction false} Utf16LengthAppend(a: string, b: string)
    ensures Utf16Length(a + b) == Utf16Length(a) + Utf16Length(b)
  {
    if a != [] {
      assert (a + b)[1..] == a[1..] + b;
      Utf16LengthAppend(a[1..], b);
    } else {
      assert a + b == b;
    }
  }

  /** Text inside the Basic Multilingual Plane has one unit per character. */
  lemma {:induction false} Utf16LengthBmp(s: string)
    requires forall i :: 0 <= i < |s| ==> s[i] as int < 0x1_0000
    ensures Utf16Length(s) == |s|
  {
    if s != [] {
      Utf16LengthBmp(s[1..]);
    }
  }

  /** Text made of characters outside the Basic Multilingual Plane (most
      emoji) has two units per character. */
  lemma {:induction false} Utf16LengthAstral(s: string)
    requires forall i :: 0 <= i < |s| ==> s[i] as int >= 0x1_0000
    ensures Utf16Length(s) == 2 * |s|
  {
    if s != [] {
      Utf16LengthAstral(s[1..]);
    }
  }

  /** The first position of `c` in `s`, as `indexOf` (None for -1). */
  function IndexOf(s: string, c: char): (r: Option<nat>)
    ensures r.None? <==> c !in s
    ensures r.Some? ==> r.value < |s| && s[r.value] == c && c !in s[..r.value]
  {
    if s == [] then None
    else if s[0] == c then Some(0)
    else match IndexOf(s[1..], c)
      case None => None
      case Some(i) => assert s[1..][..i] == s[1..i + 1]; Some(i + 1)
  }

  /** `s.split(c)` for a one-character separator. */
  function Split(s: string, c: char): (parts: seq<string>)
    ensures |parts| >= 1
    ensures forall k :: 0 <= k < |parts| ==> c !in parts[k]
    decreases |s|
  {
    match IndexOf(s, c)
    case None => [s]
    case Some(i) => [s[..i]] + Split(s[i + 1..], c)
  }

  /** `parts.join(c)`. */
  function Join(parts: seq<string>, c: char): string
  {
    if |parts| <= 1 then (if parts == [] then "" else parts[0])
    else parts[0] + [c] + Join(parts[1..], c)
  }

  /** Splitting loses nothing: joining the parts with the separator gives the string back. */
  lemma {:induction false} JoinSplit(s: string, c: char)
    ensures Join(Split(s, c), c) == s
    decreases |s|
  {
    var k := IndexOf(s, c);
    if k.Some? {
      JoinSplit(s[k.value + 1..], c);
      JoinSplitStep(s, c, k.value);
    }
  }

  lemma JoinSplitStep(s: string, c: char, i: nat)
    requires IndexOf(s, c) == Some(i)
    requires Join(Split(s[i + 1..], c), c) == s[i + 1..]
    ensures Join(Split(s, c), c) == s
  {
    var rest := s[i + 1..];
    var head := s[..i];
    var tail := Split(rest, c);
    assert Split(s, c) == [head] + tail;
    JoinCons(head, tail, c);
    CutAt(s, c, i);
  }

  /** A string is the text before a position, the character there, and the text after. */
  lemma CutAt(s: string, c: char, i: nat)
    requires i < |s| && s[i] == c
    ensures s == s[..i] + [c] + s[i + 1..]
  {
  }

  lemma JoinCons(a: string, parts: seq<string>, c: char)
    requires |parts| >= 1
    ensures Join([a] + parts, c) == a + [c] + Join(parts, c)
  {
    assert ([a] + parts)[1..] == parts;
  }

  /** Splitting a separator-free prefix off the front: the first part is exactly that prefix. */
  lemma {:induction false} SplitFront(a: string, c: char, b: string)
    requires c !in a
    ensures Split(a + [c] + b, c) == [a] + Split(b, c)
  {
    var s := a + [c] + b;
    assert s[..|a|] == a;
    assert s[|a|] == c;
    assert s[|a| + 1..] == b;
    assert IndexOf(s, c) == Some(|a|);
  }

  predicate AllSpace(s: string)
  {
    forall i :: 0 <= i < |s| ==> IsSpace(s[i])
  }

  function TrimStart(s: string): (r: string)
    ensures |r| <= |s| && r == s[|s| - |r|..]
    ensures r == [] || !IsSpace(r[0])
    ensures AllSpace(s[..|s| - |r|])
  {
    if s != [] && IsSpace(s[0]) then
      var r := TrimStart(s[1..]);
      assert s[..|s| - |r|] == [s[0]] + s[1..][..|s| - 1 - |r|];
      r
    else s
  }

  function TrimEnd(s: string): (r: string)
    ensures |r| <= |s| && r == s[..|r|]
    ensures r == [] || !IsSpace(r[|r| - 1])
    ensures AllSpace(s[|r|..])
  {
    if s != [] && IsSpace(s[|s| - 1]) then
      var r := TrimEnd(s[..|s| - 1]);
      assert s[|r|..] == s[..|s| - 1][|r|..] + [s[|s| - 1]];
      r
    else s
  }

  /** `trim`. */
  function Trim(s: string): string
  {
    TrimEnd(TrimStart(s))
  }

  /** `trim` removes exactly a run of white space at each end: the input is
      white space, the trimmed text, white space. */
  lemma TrimParts(s: string) returns (lead: string, trail: string)
    ensures AllSpace(lead) && AllSpace(trail)
    ensures s == lead + Trim(s) + trail
  {
    var t := TrimStart(s);
    lead := TrimStartParts(s);
    trail := TrimEndParts(t);
    var r := TrimEnd(t);
    assert Trim(s) == r;
    assert s == lead + (r + trail);
    ConcatAssoc(lead, r, trail);
  }

  lemma ConcatAssoc(a: string, b: string, c: string)
    ensures a + (b + c) == a + b + c
  {
  }

  lemma TrimStartParts(s: string) returns (lead: string)
    ensures AllSpace(lead) && s == lead + TrimStart(s)
  {
    var t := TrimStart(s);
    var n := |s| - |t|;
    lead := s[..n];
    assert t == s[n..];
    assert s == s[..n] + s[n..];
  }

  lemma TrimEndParts(t: string) returns (trail: string)
    ensures AllSpace(trail) && t == TrimEnd(t) + trail
  {
    var r := TrimEnd(t);
    var n := |r|;
    trail := t[n..];
    assert r == t[..n];
    assert t == t[..n] + t[n..];
  }

  /** The trimmed text is empty exactly when the input is all white space,
      and otherwise neither begins nor ends with white space. */
  lemma TrimEmptyIff(s: string)
    ensures Trim(s) == "" <==> AllSpace(s)
    ensures Trim(s) != "" ==> !IsSpace(Trim(s)[0]) && !IsSpace(Trim(s)[|Trim(s)| - 1])
  {
    var lead, trail := TrimParts(s);
    var r := Trim(s);
    if r != "" {
      assert r[0] == TrimStart(s)[0];
      assert s[|lead|] == r[0];
    } else {
      assert s == lead + trail;
      forall i | 0 <= i < |s| ensures IsSpace(s[i]) {
        if i < |lead| { assert s[i] == lead[i]; } else { assert s[i] == trail[i - |lead|]; }
      }
    }
  }

  // ---------------------------------------------------------------------
  // `parseInt(s)` with no radix argument

  /** The value of a digit in bases up to 36; 36 for any other character. */
  function DigitValue(c: char): nat
  {
    if '0' <= c <= '9' then c as nat - '0' as nat
    else if 'a' <= c <= 'z' then c as nat - 'a' as nat + 10
    else if 'A' <= c <= 'Z' then c as nat - 'A' as nat + 10
    else 36
  }

  /** The length of the leading run of digits of base `radix`. */
  function DigitRun(s: string, radix: nat): (n: nat)
    ensures n <= |s|
    ensures forall i :: 0 <= i < n ==> DigitValue(s[i]) < radix
    ensures n < |s| ==> DigitValue(s[n]) >= radix
  {
    if s == [] || DigitValue(s[0]) >= radix then 0 else 1 + DigitRun(s[1..], radix)
  }

  /** The number a run of digits denotes, most significant first. */
  function DigitsValue(s: string, radix: nat): nat
  {
    if s == [] then 0 else DigitsValue(s[..|s| - 1], radix) * radix + DigitValue(s[|s| - 1])
  }

  /** After the white space: whether a '-' is there, and the text after
      one '-' or '+'. */
  function SignPart(t: string): (bool, string)
  {
    if t != [] && (t[0] == '-' || t[0] == '+') then (t[0] == '-', t[1..]) else (false, t)
  }

  /** The unsigned part: a `0x`/`0X` prefix selects base 16, base 10
      otherwise, and the longest run of digits that follows is read; None
      when that run is empty. */
  function UnsignedPart(u: string): Option<nat>
  {
    var hex := |u| >= 2 && u[0] == '0' && (u[1] == 'x' || u[1] == 'X');
    var radix := if hex then 16 else 10;
    var body := if hex then u[2..] else u;
    var n := DigitRun(body, radix);
    if n == 0 then None else Some(DigitsValue(body[..n], radix))
  }

  /** `parseInt`: leading white space is skipped, then one sign, then the
      unsigned part. None stands for NaN. (The result -0 is represented as 0.) */
  function ParseInt(s: string): (r: Option<int>)
  {
    var sign := SignPart(TrimStart(s));
    var magnitude := UnsignedPart(sign.1);
    if magnitude.None? then None
    else if sign.0 then Some(0 - magnitude.value)
    else Some(magnitude.value as int)
  }

  function DigitChar(d: nat): char
    requires d < 10
  {
    ('0' as nat + d) as char
  }

  /** `String(n)` for a non-negative integer: its decimal digits. */
  function Decimal(n: nat): (r: string)
    ensures r != [] && DigitValue(r[0]) < 10
    ensures forall i :: 0 <= i < |r| ==> DigitValue(r[i]) < 10
  {
    if n < 10 then [DigitChar(n)] else Decimal(n / 10) + [DigitChar(n % 10)]
  }

  lemma {:induction false} DecimalValue(n: nat)
    ensures DigitsValue(Decimal(n), 10) == n
  {
    if n >= 10 {
      var r := Decimal(n);
      assert r[..|r| - 1] == Decimal(n / 10);
      DecimalValue(n / 10);
    }
  }

  lemma {:induction false} DigitRunAll(s: string, tail: string, radix: nat)
    requires forall i :: 0 <= i < |s| ==> DigitValue(s[i]) < radix
    requires tail == [] || DigitValue(tail[0]) >= radix
    ensures DigitRun(s + tail, radix) == |s|
  {
    if s != [] {
      assert (s + tail)[1..] == s[1..] + tail;
      DigitRunAll(s[1..], tail, radix);
    } else {
      assert s + tail == tail;
    }
  }

  lemma HexMarkIsLetter()
    ensures DigitValue('x') == 33 && DigitValue('X') == 33
  {
  }

  lemma UnsignedDecimal(n: nat, tail: string)
    requires tail == [] || DigitValue(tail[0]) == 36
    ensures UnsignedPart(Decimal(n) + tail) == Some(n)
  {
    var d := Decimal(n);
    var u := d + tail;
    if |u| >= 2 {
      HexMarkIsLetter();
      assert u[1] == if |d| >= 2 then d[1] else tail[0];
      assert u[1] != 'x' && u[1] != 'X';
    }
    DigitRunAll(d, tail, 10);
    assert u[..|d|] == d;
    DecimalValue(n);
    assert UnsignedPart(u) == Some(DigitsValue(u[..DigitRun(u, 10)], 10));
  }

  /** `parseInt` reads back the decimal text of any non-negative integer,
      and stops at the first character that is neither digit nor letter
      (so '5 ' and '5.0' read as 5). */
  lemma ParseIntDecimal(n: nat, tail: string)
    requires tail == [] || DigitValue(tail[0]) == 36
    ensures ParseInt(Decimal(n) + tail) == Some(n)
  {
    var s := Decimal(n) + tail;
    assert s[0] == Decimal(n)[0];
    LeadingDigit(s);
    UnsignedDecimal(n, tail);
  }

  /** Text that starts with a digit has no blank to skip and no sign. */
  lemma LeadingDigit(s: string)
    requires s != [] && DigitValue(s[0]) < 10
    ensures TrimStart(s) == s && SignPart(s) == (false, s)
  {
    assert '0' <= s[0] <= '9';
    assert !IsSpace(s[0]);
  }

  /** Blank text, or text whose first non-blank character is not a sign or
      a digit, is NaN. */
  lemma ParseIntNaN(s: string)
    requires TrimStart(s) == [] || (DigitValue(TrimStart(s)[0]) >= 10 && TrimStart(s)[0] != '-' && TrimStart(s)[0] != '+')
    ensures ParseInt(s).None?
  {
  }
}
