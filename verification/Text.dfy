/** The part of Rust's `str` that the rule language uses. A `str` is its UTF-8 byte sequence;
    byte `b` is written as the `char` with code `b`, so ASCII literals can be used as they are. */
module Text {
  import opened Common

  // --- split, join, trim ---

  /** `s.split(seps)`: always at least one part. */
  function Split(s: string, seps: set<char>): (parts: seq<string>)
    ensures |parts| >= 1
  {
    if s == "" then [""]
    else
      var rest := Split(s[1..], seps);
      if s[0] in seps then [""] + rest else [[s[0]] + rest[0]] + rest[1..]
  }

  function Join(parts: seq<string>, sep: char): string
    requires |parts| >= 1
  {
    if |parts| == 1 then parts[0] else parts[0] + [sep] + Join(parts[1..], sep)
  }

  /** Splitting at a separator inside the text. */
  lemma {:induction false} SplitConcat(a: string, sep: char, b: string, seps: set<char>)
    requires sep in seps
    ensures Split(a + [sep] + b, seps) == Split(a, seps) + Split(b, seps)
  {
    var s := a + [sep] + b;
    if a == "" {
      assert s[1..] == b;
    } else {
      assert s[1..] == a[1..] + [sep] + b;
      SplitConcat(a[1..], sep, b, seps);
    }
  }

  lemma {:induction false} SplitNone(s: string, seps: set<char>)
    requires forall c :: c in s ==> c !in seps
    ensures Split(s, seps) == [s]
  {
    if s == "" {
    } else {
      SplitNone(s[1..], seps);
      assert [s[0]] + s[1..] == s;
    }
  }

  lemma {:induction false} SplitJoin(parts: seq<string>, sep: char)
    requires |parts| >= 1
    requires forall i :: 0 <= i < |parts| ==> sep !in parts[i]
    ensures Split(Join(parts, sep), {sep}) == parts
  {
    SplitNone(parts[0], {sep});
    if |parts| == 1 {
    } else {
      SplitJoin(parts[1..], sep);
      SplitConcat(parts[0], sep, Join(parts[1..], sep), {sep});
    }
  }

  /** No part contains a separator. */
  lemma {:induction false} SplitParts(s: string, seps: set<char>, i: nat, c: char)
    requires i < |Split(s, seps)| && c in seps
    ensures c !in Split(s, seps)[i]
  {
    if s == "" {
    } else {
      if s[0] in seps {
        if i > 0 { SplitParts(s[1..], seps, i - 1, c); }
      } else {
        SplitParts(s[1..], seps, i, c);
      }
    }
  }

  /** The Unicode white space below U+0080. */
  predicate IsSpace(c: char) {
    c == ' ' || '\t' <= c <= '\r'
  }

  function TrimStart(s: string): string {
    if s != "" && IsSpace(s[0]) then TrimStart(s[1..]) else s
  }

  function TrimEnd(s: string): string {
    if s != "" && IsSpace(s[|s| - 1]) then TrimEnd(s[..|s| - 1]) else s
  }

  function Trim(s: string): string {
    TrimEnd(TrimStart(s))
  }

  /** Space, tab, line feed, vertical tab, form feed and carriage return, and nothing else. */
  lemma TrimmedExactly(c: char)
    ensures Trim([c]) == "" <==> c as int in {9, 10, 11, 12, 13, 32}
  {
    if IsSpace(c) {
      assert TrimStart([c]) == TrimStart([c][1..]);
    } else {
      assert TrimStart([c]) == [c];
    }
  }

  predicate Blank(s: string) {
    forall c :: c in s ==> IsSpace(c)
  }

  lemma {:induction false} TrimStartBlank(a: string, s: string)
    requires Blank(a)
    ensures TrimStart(a + s) == TrimStart(s)
  {
    if a == "" {
      assert a + s == s;
    } else {
      assert a[0] in a && (a + s)[1..] == a[1..] + s;
      TrimStartBlank(a[1..], s);
    }
  }

  lemma {:induction false} TrimEndBlank(s: string, b: string)
    requires Blank(b)
    ensures TrimEnd(s + b) == TrimEnd(s)
  {
    if b == "" {
      assert s + b == s;
    } else {
      assert b[|b| - 1] in b && (s + b)[..|s + b| - 1] == s + b[..|b| - 1];
      TrimEndBlank(s, b[..|b| - 1]);
    }
  }

  lemma {:induction false} TrimStartKeeps(s: string, b: string)
    requires TrimStart(s) != ""
    ensures TrimStart(s + b) == TrimStart(s) + b
  {
    if s == "" || !IsSpace(s[0]) {
    } else {
      assert (s + b)[1..] == s[1..] + b;
      TrimStartKeeps(s[1..], b);
    }
  }

  lemma {:induction false} TrimStartEmpty(s: string)
    requires TrimStart(s) == ""
    ensures Blank(s)
  {
    if s == "" {
    } else {
      TrimStartEmpty(s[1..]);
    }
  }

  /** White space around a list element does not matter. */
  lemma TrimIgnoresBlanks(a: string, s: string, b: string)
    requires Blank(a) && Blank(b)
    ensures Trim(a + s + b) == Trim(s)
  {
    assert a + s + b == a + (s + b);
    TrimStartBlank(a, s + b);
    if TrimStart(s) == "" {
      TrimStartEmpty(s);
      TrimStartBlank(s + b, "");
      assert (s + b) + "" == s + b;
    } else {
      TrimStartKeeps(s, b);
      TrimEndBlank(TrimStart(s), b);
    }
  }

  /** `s.split_once(c)`: the text before and after the first `c`. */
  function SplitOnce(s: string, c: char): (r: Option<(string, string)>)
    ensures r.None? <==> c !in s
    ensures r.Some? ==> s == r.value.0 + [c] + r.value.1 && c !in r.value.0
  {
    if s == "" then None
    else if s[0] == c then Some(("", s[1..]))
    else
      match SplitOnce(s[1..], c)
      case None => None
      case Some(ab) => Some(([s[0]] + ab.0, ab.1))
  }

  // --- ASCII case ---

  function Lower(c: char): char {
    if 'A' <= c <= 'Z' then (c as int + 32) as char else c
  }

  function Upper(c: char): char {
    if 'a' <= c <= 'z' then (c as int - 32) as char else c
  }

  predicate EqIgnoreCase(a: string, b: string) {
    |a| == |b| && forall i :: 0 <= i < |a| ==> Lower(a[i]) == Lower(b[i])
  }

  /** The same character, or the same ASCII letter in the other case. */
  predicate SameLetter(c: char, d: char) {
    || c == d
    || ('A' <= c <= 'Z' && d as int == c as int + 32)
    || ('A' <= d <= 'Z' && c as int == d as int + 32)
  }

  predicate SameLetters(a: string, b: string) {
    |a| == |b| && forall i :: 0 <= i < |a| ==> SameLetter(a[i], b[i])
  }

  /** `eq_ignore_ascii_case` identifies the two cases of the 26 ASCII letters and nothing else. */
  lemma IgnoresCaseExactly(a: string, b: string)
    ensures EqIgnoreCase(a, b) <==> SameLetters(a, b)
  {
    if |a| == |b| {
      forall i | 0 <= i < |a| ensures Lower(a[i]) == Lower(b[i]) <==> SameLetter(a[i], b[i]) {
        LowerExactly(a[i], b[i]);
      }
    }
  }

  lemma LowerExactly(c: char, d: char)
    ensures Lower(c) == Lower(d) <==> SameLetter(c, d)
  {
  }

  /** Upper case differs from the text in the case of letters only, and has no lower-case letter. */
  lemma UpperExactly(s: string, u: string)
    requires forall c :: c in u ==> 'A' <= c <= 'Z'
    ensures ToUpper(s) == u <==> SameLetters(s, u)
  {
    if |s| == |u| {
      forall i | 0 <= i < |s| ensures Upper(s[i]) == u[i] <==> SameLetter(s[i], u[i]) {
        assert u[i] in u;
      }
    }
  }

  lemma {:induction false} SplitSameLetters(a: string, b: string, seps: set<char>)
    requires SameLetters(a, b)
    requires forall c :: c in seps ==> !('A' <= c <= 'Z') && !('a' <= c <= 'z')
    ensures |Split(a, seps)| == |Split(b, seps)|
    ensures forall i :: 0 <= i < |Split(a, seps)| ==> SameLetters(Split(a, seps)[i], Split(b, seps)[i])
  {
    if a == "" {
    } else {
      assert SameLetter(a[0], b[0]);
      assert forall i :: 0 <= i < |a[1..]| ==> a[1..][i] == a[i + 1] && b[1..][i] == b[i + 1];
      SplitSameLetters(a[1..], b[1..], seps);
    }
  }

  lemma {:induction false} TrimStartSameLetters(a: string, b: string)
    requires SameLetters(a, b)
    ensures SameLetters(TrimStart(a), TrimStart(b))
  {
    if a == "" || !IsSpace(a[0]) {
      assert a != "" ==> SameLetter(a[0], b[0]);
    } else {
      assert SameLetter(a[0], b[0]);
      assert forall i :: 0 <= i < |a[1..]| ==> a[1..][i] == a[i + 1] && b[1..][i] == b[i + 1];
      TrimStartSameLetters(a[1..], b[1..]);
    }
  }

  lemma {:induction false} TrimEndSameLetters(a: string, b: string)
    requires SameLetters(a, b)
    ensures SameLetters(TrimEnd(a), TrimEnd(b))
  {
    if a == "" || !IsSpace(a[|a| - 1]) {
      assert a != "" ==> SameLetter(a[|a| - 1], b[|b| - 1]);
    } else {
      assert SameLetter(a[|a| - 1], b[|b| - 1]);
      TrimEndSameLetters(a[..|a| - 1], b[..|b| - 1]);
    }
  }

  function ToUpper(s: string): (u: string)
    ensures |u| == |s| && forall i :: 0 <= i < |s| ==> u[i] == Upper(s[i])
  {
    seq(|s|, i requires 0 <= i < |s| => Upper(s[i]))
  }

  // --- decimal numbers ---

  predicate IsDigit(c: char) {
    '0' <= c <= '9'
  }

  function DigitsValue(s: string): nat
    requires forall c :: c in s ==> IsDigit(c)
  {
    if s == "" then 0
    else
      assert IsDigit(s[|s| - 1]);
      10 * DigitsValue(s[..|s| - 1]) + (s[|s| - 1] as int - '0' as int)
  }

  /** `s.parse::<uN>()` with `max == uN::MAX`: one leading `+` and leading zeros are accepted. */
  function ParseUint(s: string, max: nat): (r: Option<nat>)
    ensures r.Some? ==> r.value <= max
  {
    var digits := if |s| > 1 && s[0] == '+' then s[1..] else s;
    if digits == "" || exists c :: c in digits && !IsDigit(c) then None
    else if DigitsValue(digits) > max then None
    else Some(DigitsValue(digits))
  }

  /** Anything but digits, after at most one plus sign, is refused. */
  lemma ParseRefuses(plus: bool, s: string, max: nat)
    requires s == "" || exists c :: c in s && !('0' <= c <= '9') && (c == '+' ==> plus)
    ensures ParseUint((if plus then "+" else "") + s, max) == None
  {
    var t := (if plus then "+" else "") + s;
    var digits := if |t| > 1 && t[0] == '+' then t[1..] else t;
    if s != "" {
      var i :| 0 <= i < |s| && !('0' <= s[i] <= '9') && (s[i] == '+' ==> plus);
      if plus {
        assert digits[i] == s[i];
      } else {
        assert t == s;
        assert digits[if digits == s then i else i - 1] == s[i];
      }
      assert s[i] in digits && !IsDigit(s[i]);
    } else if plus {
      assert t == "+" && '+' in t && !IsDigit('+');
    } else {
      assert t == "";
    }
  }

  /** The `{}` formatting of an unsigned integer. */
  function ToDecimal(n: nat): (s: string)
    ensures s != "" && forall c :: c in s ==> IsDigit(c)
  {
    var d := [('0' as int + n % 10) as char];
    if n < 10 then d else ToDecimal(n / 10) + d
  }

  lemma {:induction false} DecimalRoundTrip(n: nat)
    ensures DigitsValue(ToDecimal(n)) == n
  {
    if n < 10 {
    } else {
      DecimalRoundTrip(n / 10);
      var s := ToDecimal(n);
      assert s[..|s| - 1] == ToDecimal(n / 10);
    }
  }

  function Zeros(k: nat): (z: string)
    ensures |z| == k && forall c :: c in z ==> c == '0'
  {
    seq(k, i => '0')
  }

  lemma {:induction false} ZerosIgnored(k: nat, s: string)
    requires forall c :: c in s ==> IsDigit(c)
    ensures DigitsValue(Zeros(k) + s) == DigitsValue(s)
  {
    var z := Zeros(k) + s;
    if s != "" {
      ZerosIgnored(k, s[..|s| - 1]);
      assert z[..|z| - 1] == Zeros(k) + s[..|s| - 1];
    } else if k > 0 {
      ZerosIgnored(k - 1, "");
      assert z[..|z| - 1] == Zeros(k - 1) + "";
    }
  }

  /** Numbers are read with an optional plus sign and any number of leading zeros, and only overflow is refused. */
  lemma ParseReads(plus: bool, k: nat, n: nat, max: nat)
    ensures ParseUint((if plus then "+" else "") + Zeros(k) + ToDecimal(n), max) == if n <= max then Some(n) else None
  {
    hide ToDecimal, Zeros;
    var d := Zeros(k) + ToDecimal(n);
    var s := (if plus then "+" else "") + Zeros(k) + ToDecimal(n);
    assert forall c :: c in d ==> IsDigit(c);
    assert d[0] in d;
    if plus {
      assert s[1..] == d;
    } else {
      assert s == d;
    }
    ZerosIgnored(k, ToDecimal(n));
    DecimalRoundTrip(n);
  }
}
