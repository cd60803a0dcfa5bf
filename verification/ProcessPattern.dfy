/** Process patterns of `rule.rs`: list, target choice, one star at one end, character-boundary guards. */
module ProcessPattern {
  import opened Common
  import opened Text

  // --- UTF-8 (RFC 3629, sections 3 and 4) ---

  predicate IsTail(c: char) {
    0x80 <= c as int < 0xC0
  }

  /** Length of the well-formed character at the head of `s`, 0 if there is none. */
  function CharLen(s: string): (n: nat)
    requires s != ""
    ensures n <= |s| && n <= 4
  {
    var b := s[0] as int;
    if b < 0x80 then 1
    else if 0xC2 <= b < 0xE0 && |s| >= 2 && IsTail(s[1]) then 2
    else if 0xE0 <= b < 0xF0 && |s| >= 3 && IsTail(s[1]) && IsTail(s[2])
            && (b == 0xE0 ==> s[1] as int >= 0xA0) && (b == 0xED ==> (s[1] as int) < 0xA0) then 3
    else if 0xF0 <= b < 0xF5 && |s| >= 4 && IsTail(s[1]) && IsTail(s[2]) && IsTail(s[3])
            && (b == 0xF0 ==> s[1] as int >= 0x90) && (b == 0xF4 ==> (s[1] as int) < 0x90) then 4
    else 0
  }

  predicate ValidUtf8(s: string) {
    s == "" || (var n := CharLen(s); n > 0 && ValidUtf8(s[n..]))
  }

  /** The Unicode scalar values. */
  predicate Scalar(v: nat) {
    v < 0xD800 || 0xE000 <= v < 0x11_0000
  }

  /** The octets of a scalar value, RFC 3629 section 3. */
  function Octets(v: nat): seq<int> {
    if v < 0x80 then [v]
    else if v < 0x800 then [0xC0 + v / 0x40, 0x80 + v % 0x40]
    else if v < 0x1_0000 then [0xE0 + v / 0x1000, 0x80 + v / 0x40 % 0x40, 0x80 + v % 0x40]
    else [0xF0 + v / 0x4_0000, 0x80 + v / 0x1000 % 0x40, 0x80 + v / 0x40 % 0x40, 0x80 + v % 0x40]
  }

  /** `s` starts with the encoding of `v`. */
  predicate Encodes(s: string, v: nat) {
    |Octets(v)| <= |s| && forall i :: 0 <= i < |Octets(v)| ==> s[i] as int == Octets(v)[i]
  }

  lemma ScalarIsWellFormed(s: string, v: nat)
    requires Scalar(v) && Encodes(s, v)
    ensures s != "" && CharLen(s) == |Octets(v)|
  {
    var o := Octets(v);
    assert |o| > 0 && s[0] as int == o[0];
    assert |o| > 1 ==> s[1] as int == o[1];
    assert |o| > 2 ==> s[2] as int == o[2];
    assert |o| > 3 ==> s[3] as int == o[3];
    OctetRanges(v);
    hide Octets;
  }

  /** The rows of the table in RFC 3629 section 4. */
  lemma OctetRanges(v: nat)
    requires Scalar(v)
    ensures var o := Octets(v);
      && 1 <= |o| <= 4
      && (forall i :: 1 <= i < |o| ==> 0x80 <= o[i] < 0xC0)
      && (|o| == 1 ==> o[0] < 0x80)
      && (|o| == 2 ==> 0xC2 <= o[0] < 0xE0)
      && (|o| == 3 ==> 0xE0 <= o[0] < 0xF0 && (o[0] == 0xE0 ==> o[1] >= 0xA0) && (o[0] == 0xED ==> o[1] < 0xA0))
      && (|o| == 4 ==> 0xF0 <= o[0] < 0xF5 && (o[0] == 0xF0 ==> o[1] >= 0x90) && (o[0] == 0xF4 ==> o[1] < 0x90))
  {
    var x: int := v / 0x40;
    var y: int := x / 0x40;
    assert v / 0x1000 == y && v / 0x4_0000 == y / 0x40;
    if 0xD000 <= v < 0xE000 { assert v < 0xD800 && y == 0xD && x < 0x360; }
    if v >= 0x10_0000 { assert y / 0x40 == 4 && y < 0x110; }
  }

  /** Three octets of six bits below a head `h`. */
  lemma SixBits(h: nat, a: nat, b: nat, c: nat)
    requires a < 0x40 && b < 0x40 && c < 0x40
    ensures (h * 0x40 + a) / 0x40 == h && (h * 0x40 + a) % 0x40 == a
    ensures var v := (h * 0x40 + a) * 0x40 + b; v / 0x1000 == h && v / 0x40 % 0x40 == a && v % 0x40 == b
    ensures var v := ((h * 0x40 + a) * 0x40 + b) * 0x40 + c;
      v / 0x4_0000 == h && v / 0x1000 % 0x40 == a && v / 0x40 % 0x40 == b && v % 0x40 == c
  {
    var x: int := h * 0x40 + a;
    var y: int := x * 0x40 + b;
    var z: int := y * 0x40 + c;
    assert x / 0x40 == h && y / 0x40 == x && z / 0x40 == y;
    assert y / 0x1000 == y / 0x40 / 0x40 && z / 0x1000 == z / 0x40 / 0x40 && z / 0x4_0000 == z / 0x40 / 0x40 / 0x40;
  }

  lemma WellFormedIsScalar(s: string) returns (v: nat)
    requires s != "" && CharLen(s) > 0
    ensures Scalar(v) && Encodes(s, v) && CharLen(s) == |Octets(v)|
  {
    var b: int := s[0] as int;
    match CharLen(s)
    case 1 => v := b;
    case 2 =>
      v := (b - 0xC0) * 0x40 + (s[1] as int - 0x80);
      SixBits(b - 0xC0, s[1] as int - 0x80, 0, 0);
    case 3 =>
      v := ((b - 0xE0) * 0x40 + (s[1] as int - 0x80)) * 0x40 + (s[2] as int - 0x80);
      SixBits(b - 0xE0, s[1] as int - 0x80, s[2] as int - 0x80, 0);
    case _ => v := WellFormedFour(s);
  }

  lemma WellFormedFour(s: string) returns (v: nat)
    requires s != "" && CharLen(s) == 4
    ensures Scalar(v) && Encodes(s, v) && |Octets(v)| == 4
  {
    var h, x, y, z := s[0] as int - 0xF0, s[1] as int - 0x80, s[2] as int - 0x80, s[3] as int - 0x80;
    v := ((h * 0x40 + x) * 0x40 + y) * 0x40 + z;
    SixBits(h, x, y, z);
    assert 0x1_0000 <= v < 0x11_0000;
  }

  /** A string is valid exactly when it is empty, or starts with the encoding of a scalar value and is valid behind
      it. */
  lemma ValidExactly(s: string)
    ensures ValidUtf8(s) <==> s == "" || exists v: nat :: Scalar(v) && Encodes(s, v) && ValidUtf8(s[|Octets(v)|..])
  {
    hide Octets, Encodes, Scalar;
    if s != "" && CharLen(s) > 0 {
      var v := WellFormedIsScalar(s);
      assert ValidUtf8(s) ==> Scalar(v) && Encodes(s, v) && ValidUtf8(s[|Octets(v)|..]);
    }
    forall v: nat | Scalar(v) && Encodes(s, v) ensures s != "" && CharLen(s) == |Octets(v)| {
      ScalarIsWellFormed(s, v);
    }
  }

  /** `str::is_char_boundary` */
  predicate IsCharBoundary(s: string, i: nat) {
    i == 0 || i == |s| || (i < |s| && !IsTail(s[i]))
  }

  /** `s.get(..n)` */
  function GetTo(s: string, n: nat): Option<string> {
    if n <= |s| && IsCharBoundary(s, n) then Some(s[..n]) else None
  }

  /** `s.get(k..)` */
  function GetFrom(s: string, k: nat): Option<string> {
    if k <= |s| && IsCharBoundary(s, k) then Some(s[k..]) else None
  }

  lemma {:induction false} SameLettersValid(a: string, b: string)
    requires SameLetters(a, b) && ValidUtf8(a)
    ensures ValidUtf8(b)
  {
    if a == "" {
    } else {
      forall i | 0 <= i < |a| ensures a[i] == b[i] || (a[i] as int < 0x80 && b[i] as int < 0x80) {
        assert SameLetter(a[i], b[i]);
      }
      var n := CharLen(a);
      assert CharLen(b) == n;
      SameLettersValid(a[n..], b[n..]);
    }
  }

  /** After a valid prefix of a valid string comes a character boundary. */
  lemma {:induction false} ValidPrefixBoundary(s: string, n: nat)
    requires n <= |s| && ValidUtf8(s) && ValidUtf8(s[..n])
    ensures n == |s| || !IsTail(s[n])
  {
    if n == 0 {
    } else {
      var k := CharLen(s[..n]);
      assert CharLen(s) == k;
      assert s[k..][..n - k] == s[..n][k..];
      ValidPrefixBoundary(s[k..], n - k);
    }
  }

  // --- The matcher ---

  function Last(parts: seq<string>): string
    requires |parts| >= 1
  {
    parts[|parts| - 1]
  }

  /** `path.rsplit('/').next()` */
  function FileName(path: string): string {
    Last(Split(path, {'/'}))
  }

  function Target(pattern: string, path: string): string {
    if '/' in pattern then path else FileName(path)
  }

  predicate MatchTarget(pattern: string, target: string) {
    if pattern != "" && pattern[|pattern| - 1] == '*' then
      var prefix := pattern[..|pattern| - 1];
      var head := GetTo(target, |prefix|);
      head.Some? && EqIgnoreCase(head.value, prefix)
    else if pattern != "" && pattern[0] == '*' then
      var suffix := pattern[1..];
      var tail := GetFrom(target, if |suffix| <= |target| then |target| - |suffix| else 0);
      tail.Some? && EqIgnoreCase(tail.value, suffix)
    else
      EqIgnoreCase(target, pattern)
  }

  predicate MatchProcessPattern(pattern: string, path: string) {
    pattern == "*" || MatchTarget(pattern, Target(pattern, path))
  }

  predicate MatchProcessList(list: string, path: string) {
    if list == "*" then true
    else
      var parts := Split(list, {';'});
      exists i :: 0 <= i < |parts| && MatchProcessPattern(Trim(parts[i]), path)
  }

  // --- Byte-wise reading of the three pattern shapes ---

  predicate HasPrefix(t: string, x: string) {
    |x| <= |t| && SameLetters(t[..|x|], x)
  }

  predicate HasSuffix(t: string, x: string) {
    |x| <= |t| && SameLetters(t[|t| - |x|..], x)
  }

  predicate MatchBytes(pattern: string, t: string) {
    if pattern != "" && pattern[|pattern| - 1] == '*' then HasPrefix(t, pattern[..|pattern| - 1])
    else if pattern != "" && pattern[0] == '*' then HasSuffix(t, pattern[1..])
    else SameLetters(t, pattern)
  }

  lemma {:induction false} ValidWithoutEnd(p: string)
    requires p != "" && ValidUtf8(p) && p[|p| - 1] == '*'
    ensures ValidUtf8(p[..|p| - 1])
  {
    var n := CharLen(p);
    if n == |p| {
    } else {
      ValidWithoutEnd(p[n..]);
      var q := p[..|p| - 1];
      assert CharLen(q) == n;
      assert q[n..] == p[n..][..|p[n..]| - 1];
    }
  }

  lemma {:induction false} FileNameValid(path: string)
    requires ValidUtf8(path)
    ensures ValidUtf8(FileName(path))
  {
    SplitAllValid(path, '/');
  }

  lemma {:induction false} SplitAllValid(s: string, sep: char)
    requires ValidUtf8(s) && sep as int < 0x80
    ensures forall i :: 0 <= i < |Split(s, {sep})| ==> ValidUtf8(Split(s, {sep})[i])
    decreases |s|
  {
    if sep in s {
      var ab := SplitOnce(s, sep).value;
      SplitConcat(ab.0, sep, ab.1, {sep});
      SplitNone(ab.0, {sep});
      ValidAround(ab.0, sep, ab.1);
      assert ab.0 + [sep] + ab.1 == s;
      SplitAllValid(ab.1, sep);
    } else {
      SplitNone(s, {sep});
    }
  }

  /** An ASCII character inside a valid string leaves two valid strings. */
  lemma {:induction false} ValidAround(a: string, c: char, b: string)
    requires c as int < 0x80 && ValidUtf8(a + [c] + b)
    ensures ValidUtf8(a) && ValidUtf8(b)
  {
    var s := a + [c] + b;
    if a == "" {
      assert s[1..] == b;
    } else {
      var n := CharLen(s);
      assert s[|a|] == c;
      assert n <= |a|;
      assert s[n..] == a[n..] + [c] + b;
      ValidAround(a[n..], c, b);
      assert CharLen(a) == n;
    }
  }

  lemma PrefixGuard(t: string, x: string)
    requires ValidUtf8(t) && ValidUtf8(x) && HasPrefix(t, x)
    ensures IsCharBoundary(t, |x|)
  {
    assert forall i :: 0 <= i < |x| ==> SameLetter(t[..|x|][i], x[i]);
    SameLettersValid(x, t[..|x|]);
    ValidPrefixBoundary(t, |x|);
  }

  lemma SuffixGuard(t: string, x: string)
    requires ValidUtf8(x) && HasSuffix(t, x)
    ensures IsCharBoundary(t, |t| - |x|)
  {
    if x != "" {
      var k := |t| - |x|;
      assert t[k..][0] == t[k];
      assert SameLetter(t[k..][0], x[0]);
      assert CharLen(x) > 0;
    }
  }

  lemma GuardsOnTarget(p: string, t: string)
    requires ValidUtf8(p) && ValidUtf8(t)
    ensures MatchTarget(p, t) == MatchBytes(p, t)
  {
    hide SameLetters, ValidUtf8, IsCharBoundary;
    if p != "" && p[|p| - 1] == '*' {
      var x := p[..|p| - 1];
      ValidWithoutEnd(p);
      if |x| <= |t| { IgnoresCaseExactly(t[..|x|], x); }
      if HasPrefix(t, p[..|p| - 1]) { PrefixGuard(t, p[..|p| - 1]); }
    } else if p != "" && p[0] == '*' {
      var x := p[1..];
      StarThenValid(p);
      if |x| <= |t| { IgnoresCaseExactly(t[|t| - |x|..], x); }
      if HasSuffix(t, x) { SuffixGuard(t, x); }
    } else {
      IgnoresCaseExactly(t, p);
    }
  }

  /** The character-boundary guards never reject a true match. */
  lemma GuardsAreInvisible(pattern: string, path: string)
    requires ValidUtf8(pattern) && ValidUtf8(path)
    ensures MatchProcessPattern(pattern, path) == MatchBytes(pattern, Target(pattern, path))
  {
    var t := Target(pattern, path);
    FileNameValid(path);
    GuardsOnTarget(pattern, t);
    if pattern == "*" { assert t[..0] == ""; }
  }

  lemma StarThenValid(p: string)
    requires p != "" && p[0] == '*' && ValidUtf8(p)
    ensures ValidUtf8(p[1..])
  {
  }

  // --- A general case-insensitive glob ---

  predicate Glob(p: string, t: string)
    decreases |p| + |t|
  {
    if p == "" then t == ""
    else if p[0] == '*' then Glob(p[1..], t) || (t != "" && Glob(p, t[1..]))
    else t != "" && SameLetter(p[0], t[0]) && Glob(p[1..], t[1..])
  }

  /** At most one star, and only at one end. */
  predicate EndStarOnly(p: string) {
    '*' !in p
    || (p[|p| - 1] == '*' && '*' !in p[..|p| - 1])
    || (p[0] == '*' && '*' !in p[1..])
  }

  lemma {:induction false} GlobLiteral(x: string, t: string)
    requires '*' !in x
    ensures Glob(x, t) <==> SameLetters(t, x)
  {
    if x == "" || t == "" {
    } else {
      GlobLiteral(x[1..], t[1..]);
      if SameLetters(t, x) {
        assert SameLetter(t[0], x[0]);
        assert forall i :: 0 <= i < |t[1..]| ==> t[1..][i] == t[i + 1] && x[1..][i] == x[i + 1];
      }
      if SameLetters(t[1..], x[1..]) && SameLetter(x[0], t[0]) {
        forall i | 0 <= i < |t| ensures SameLetter(t[i], x[i]) {
          if i > 0 { assert t[i] == t[1..][i - 1] && x[i] == x[1..][i - 1]; }
        }
      }
    }
  }

  lemma {:induction false} GlobStar(t: string)
    ensures Glob("*", t)
  {
    if t == "" {
    } else {
      GlobStar(t[1..]);
    }
  }

  lemma {:induction false} GlobPrefix(x: string, t: string)
    requires '*' !in x
    ensures Glob(x + "*", t) <==> HasPrefix(t, x)
  {
    if x == "" {
      GlobStar(t);
      assert x + "*" == "*";
    } else if t != "" {
      GlobPrefix(x[1..], t[1..]);
      assert (x + "*")[1..] == x[1..] + "*";
      if |x| <= |t| {
        assert t[..|x|][1..] == t[1..][..|x| - 1];
        GlobLiteral(x, t[..|x|]);
        GlobLiteral(x[1..], t[..|x|][1..]);
      }
    }
  }

  lemma {:induction false} GlobSuffix(x: string, t: string)
    requires '*' !in x
    ensures Glob("*" + x, t) <==> HasSuffix(t, x)
    decreases |t|
  {
    assert ("*" + x)[1..] == x;
    GlobLiteral(x, t);
    if t == "" {
    } else {
      GlobSuffix(x, t[1..]);
      if |x| < |t| { assert t[1..][|t| - 1 - |x|..] == t[|t| - |x|..]; }
    }
    if |x| == |t| { assert t[|t| - |x|..] == t; }
  }

  lemma MatchBytesIsGlob(p: string, t: string)
    requires EndStarOnly(p)
    ensures MatchBytes(p, t) == Glob(p, t)
  {
    if p != "" && p[|p| - 1] == '*' {
      var x := p[..|p| - 1];
      assert x + "*" == p;
      if |p| > 1 { assert p[1..][|p| - 2] == '*'; }
      GlobPrefix(x, t);
    } else if p != "" && p[0] == '*' {
      assert "*" + p[1..] == p;
      GlobSuffix(p[1..], t);
    } else {
      GlobLiteral(p, t);
    }
  }

  function DropStars(p: string): (r: string)
    ensures '*' !in r && forall c :: c in r ==> c in p
  {
    if p == "" then "" else (if p[0] == '*' then "" else [p[0]]) + DropStars(p[1..])
  }

  lemma {:induction false} GlobDropStars(p: string)
    ensures Glob(p, DropStars(p))
  {
    if p == "" {
    } else {
      GlobDropStars(p[1..]);
      if p[0] == '*' {
        assert DropStars(p) == DropStars(p[1..]);
      } else {
        assert DropStars(p)[1..] == DropStars(p[1..]);
      }
    }
  }

  lemma {:induction false} DropStarsConcat(a: string, b: string)
    ensures DropStars(a + b) == DropStars(a) + DropStars(b)
  {
    if a == "" {
      assert a + b == b;
    } else {
      assert (a + b)[1..] == a[1..] + b;
      DropStarsConcat(a[1..], b);
    }
  }

  lemma {:induction false} DropStarsNone(a: string)
    requires '*' !in a
    ensures DropStars(a) == a
  {
    if a == "" {
    } else {
      DropStarsNone(a[1..]);
    }
  }

  lemma ValidCons(h: string, r: string)
    requires h != "" && CharLen(h) == |h| && ValidUtf8(r)
    ensures ValidUtf8(h + r)
  {
    var s := h + r;
    assert CharLen(s) == |h| && s[|h|..] == r;
  }

  lemma {:induction false} DropStarsValid(p: string)
    requires ValidUtf8(p)
    ensures ValidUtf8(DropStars(p))
  {
    if p == "" {
    } else {
      var n := CharLen(p);
      var h := p[..n];
      DropStarsValid(p[n..]);
      if p[0] == '*' {
        assert DropStars(p) == DropStars(p[1..]);
      } else {
        HeadChar(p);
        DropStarsHead(h, p[n..]);
        ValidCons(h, DropStars(p[n..]));
        assert h + p[n..] == p;
      }
    }
  }

  lemma HeadChar(p: string)
    requires p != "" && CharLen(p) > 0 && p[0] != '*'
    ensures var h := p[..CharLen(p)]; CharLen(h) == |h| && '*' !in h
  {
    var n := CharLen(p);
    assert forall i :: 1 <= i < n ==> IsTail(p[i]);
  }

  lemma DropStarsHead(h: string, r: string)
    requires '*' !in h
    ensures DropStars(h + r) == h + DropStars(r)
  {
    DropStarsConcat(h, r);
    DropStarsNone(h);
  }

  lemma StarIsStar(t: string, x: string)
    requires SameLetters(t, x) && '*' in x
    ensures '*' in t
  {
    var i :| 0 <= i < |x| && x[i] == '*';
    assert SameLetter(t[i], x[i]);
    assert t[i] == '*';
  }

  /** Any other star is taken literally, so a match needs a star in the target. */
  lemma InnerStarIsLiteral(p: string, t: string)
    requires !EndStarOnly(p) && MatchBytes(p, t)
    ensures '*' in t
  {
    if p[|p| - 1] == '*' {
      StarIsStar(t[..|p| - 1], p[..|p| - 1]);
    } else if p[0] == '*' {
      StarIsStar(t[|t| - |p| + 1..], p[1..]);
    } else {
      StarIsStar(t, p);
    }
  }

  /** A pattern with its star at one end is a glob on the chosen target. */
  lemma EndStarIsGlob(p: string, path: string)
    requires ValidUtf8(p) && ValidUtf8(path) && EndStarOnly(p)
    ensures MatchProcessPattern(p, path) == Glob(p, Target(p, path))
  {
    GuardsAreInvisible(p, path);
    MatchBytesIsGlob(p, Target(p, path));
  }

  ghost predicate AgreesWithGlob(p: string) {
    forall path :: ValidUtf8(path) ==> MatchProcessPattern(p, path) == Glob(p, Target(p, path))
  }

  /** The matcher is a glob for exactly the patterns with at most one star, at one end. */
  lemma GlobExactly(p: string)
    requires ValidUtf8(p)
    ensures AgreesWithGlob(p) <==> EndStarOnly(p)
  {
    if EndStarOnly(p) {
      forall path | ValidUtf8(path) ensures MatchProcessPattern(p, path) == Glob(p, Target(p, path)) {
        EndStarIsGlob(p, path);
      }
    } else {
      var path := DropStars(p);
      DropStarsValid(p);
      if '/' !in p { SplitNone(path, {'/'}); }
      assert Target(p, path) == path;
      GlobDropStars(p);
      GuardsAreInvisible(p, path);
      if MatchBytes(p, path) { InnerStarIsLiteral(p, path); }
      assert MatchProcessPattern(p, path) != Glob(p, Target(p, path));
    }
  }

  /** A slash-free pattern sees only the text after the last slash. */
  lemma DirectoryIsIgnored(p: string, dir: string, file: string)
    requires '/' !in p && '/' !in file
    ensures MatchProcessPattern(p, dir + "/" + file) == MatchProcessPattern(p, file)
  {
    SplitConcat(dir, '/', file, {'/'});
    SplitNone(file, {'/'});
  }

  /** A pattern without a slash is compared with the text after the last slash, any other with the whole path. */
  lemma TargetExactly(p: string, dir: string, file: string)
    requires '/' !in file
    ensures Target(p, dir + "/" + file) == if '/' in p then dir + "/" + file else file
    ensures Target(p, file) == file
  {
    SplitConcat(dir, '/', file, {'/'});
    SplitNone(file, {'/'});
  }

  lemma BoundarySameLetters(t: string, u: string, n: nat)
    requires SameLetters(t, u)
    ensures n <= |t| ==> IsCharBoundary(t, n) == IsCharBoundary(u, n)
  {
    if n < |t| { assert SameLetter(t[n], u[n]); }
  }

  lemma SameLettersSlices(a: string, b: string, i: nat, j: nat)
    requires SameLetters(a, b) && i <= j <= |a|
    ensures SameLetters(a[i..j], b[i..j])
  {
  }

  lemma SameLettersChain(a: string, a': string, b: string, b': string)
    requires SameLetters(a, a') && SameLetters(b, b')
    ensures EqIgnoreCase(a, b) == EqIgnoreCase(a', b')
  {
    forall i | 0 <= i < |a| ensures Lower(a[i]) == Lower(a'[i]) { LowerExactly(a[i], a'[i]); }
    forall i | 0 <= i < |b| ensures Lower(b[i]) == Lower(b'[i]) { LowerExactly(b[i], b'[i]); }
  }

  lemma TargetCase(p: string, q: string, t: string, u: string)
    requires SameLetters(p, q) && SameLetters(t, u)
    ensures MatchTarget(p, t) == MatchTarget(q, u)
  {
    hide EqIgnoreCase, IsCharBoundary;
    SameLettersChain(t, u, p, q);
    if p != "" {
      assert SameLetter(p[0], q[0]) && SameLetter(p[|p| - 1], q[|q| - 1]);
      var n := |p| - 1;
      var k := if n <= |t| then |t| - n else 0;
      SameLettersSlices(p, q, 0, n);
      SameLettersSlices(p, q, 1, |p|);
      SameLettersSlices(t, u, k, |t|);
      BoundarySameLetters(t, u, n);
      BoundarySameLetters(t, u, k);
      SameLettersChain(t[k..], u[k..], p[1..], q[1..]);
      if n <= |t| {
        SameLettersSlices(t, u, 0, n);
        SameLettersChain(t[..n], u[..n], p[..n], q[..n]);
      }
    }
  }

  /** Exchanging upper and lower case in a pattern or a path never changes a match. */
  lemma CaseIsIrrelevant(p: string, q: string, path: string, route: string)
    requires SameLetters(p, q) && SameLetters(path, route)
    ensures MatchProcessPattern(p, path) == MatchProcessPattern(q, route)
  {
    hide SameLetters, MatchTarget;
    SameLettersHave(p, q, '/');
    SplitSameLetters(path, route, {'/'});
    TargetCase(p, q, Target(p, path), Target(q, route));
    StarAlone(p, q);
  }

  lemma SameLettersHave(p: string, q: string, c: char)
    requires SameLetters(p, q) && !('A' <= c <= 'Z') && !('a' <= c <= 'z')
    ensures c in p <==> c in q
  {
    assert forall i :: 0 <= i < |p| ==> SameLetter(p[i], q[i]);
  }

  lemma StarAlone(p: string, q: string)
    requires SameLetters(p, q)
    ensures p == "*" <==> q == "*"
  {
    if |p| == 1 { assert SameLetter(p[0], q[0]); }
  }

  /** The same for lists of patterns. */
  lemma ListCaseIsIrrelevant(list: string, tsil: string, path: string, route: string)
    requires SameLetters(list, tsil) && SameLetters(path, route)
    ensures MatchProcessList(list, path) == MatchProcessList(tsil, route)
  {
    hide MatchProcessPattern, SameLetters, Trim;
    StarAlone(list, tsil);
    SplitSameLetters(list, tsil, {';'});
    var ps, qs := Split(list, {';'}), Split(tsil, {';'});
    forall i | 0 <= i < |ps| ensures MatchProcessPattern(Trim(ps[i]), path) == MatchProcessPattern(Trim(qs[i]), route) {
      TrimSameLetters(ps[i], qs[i]);
      CaseIsIrrelevant(Trim(ps[i]), Trim(qs[i]), path, route);
    }
  }

  lemma TrimSameLetters(a: string, b: string)
    requires SameLetters(a, b)
    ensures SameLetters(Trim(a), Trim(b))
  {
    hide SameLetters;
    TrimStartSameLetters(a, b);
    TrimEndSameLetters(TrimStart(a), TrimStart(b));
  }

  // --- Lists ---

  predicate AnyProcess(parts: seq<string>, path: string) {
    exists i :: 0 <= i < |parts| && MatchProcessPattern(Trim(parts[i]), path)
  }

  lemma ListIsAny(list: string, path: string)
    ensures MatchProcessList(list, path) == AnyProcess(Split(list, {';'}), path)
  {
    if list == "*" {
      SplitNone(list, {';'});
      assert TrimEnd("*") == "*" && TrimStart("*") == "*";
      assert MatchProcessPattern(Trim(Split(list, {';'})[0]), path);
    }
  }

  lemma AnyConcat(a: seq<string>, b: seq<string>, path: string)
    ensures AnyProcess(a + b, path) == (AnyProcess(a, path) || AnyProcess(b, path))
  {
    if AnyProcess(a, path) {
      var i :| 0 <= i < |a| && MatchProcessPattern(Trim(a[i]), path);
      assert (a + b)[i] == a[i];
    }
    if AnyProcess(b, path) {
      var i :| 0 <= i < |b| && MatchProcessPattern(Trim(b[i]), path);
      assert (a + b)[|a| + i] == b[i];
    }
  }

  /** Concatenating lists is disjunction, for all lists. */
  lemma ProcessListConcat(a: string, b: string, path: string)
    ensures MatchProcessList(a + ";" + b, path) == (MatchProcessList(a, path) || MatchProcessList(b, path))
  {
    SplitConcat(a, ';', b, {';'});
    ListIsAny(a, path);
    ListIsAny(b, path);
    ListIsAny(a + ";" + b, path);
    AnyConcat(Split(a, {';'}), Split(b, {';'}), path);
  }

  /** A joined list matches when some element does, so its order is irrelevant. */
  lemma {:induction false} ProcessListJoin(ps: seq<string>, path: string)
    requires |ps| >= 1
    ensures MatchProcessList(Join(ps, ';'), path) <==> exists p :: p in ps && MatchProcessList(p, path)
  {
    if |ps| > 1 {
      ProcessListConcat(ps[0], Join(ps[1..], ';'), path);
      ProcessListJoin(ps[1..], path);
      assert ps == [ps[0]] + ps[1..];
    } else {
      assert ps[0] in ps;
    }
  }

  lemma ProcessListReorder(ps: seq<string>, qs: seq<string>, path: string)
    requires |ps| >= 1 && multiset(ps) == multiset(qs)
    ensures |qs| >= 1 && MatchProcessList(Join(ps, ';'), path) == MatchProcessList(Join(qs, ';'), path)
  {
    assert |multiset(ps)| == |multiset(qs)|;
    ProcessListJoin(ps, path);
    ProcessListJoin(qs, path);
    assert forall p :: p in ps <==> p in multiset(ps);
    assert forall p :: p in qs <==> p in multiset(qs);
  }
}
