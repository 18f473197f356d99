/**
 * The handful of Rust `str` operations the drive backends are built from:
 * `starts_with`, `find`, `contains`, `trim`, `lines`, `split_whitespace`,
 * `replace` and `parse::<u64>`. Characters stand for bytes of ASCII text:
 * indices are character indices and whitespace is ASCII whitespace.
 */
module Text {
  import opened Wrappers

  /** ASCII whitespace: space and the controls tab, line feed, vertical tab, form feed, carriage return. */
  predicate IsWhitespace(c: char) {
    c == ' ' || '\t' <= c <= '\r'
  }

  predicate AllWhitespace(s: string) {
    forall i | 0 <= i < |s| :: IsWhitespace(s[i])
  }

  predicate NoWhitespace(s: string) {
    forall i | 0 <= i < |s| :: !IsWhitespace(s[i])
  }

  /** `s.starts_with(p)` */
  predicate StartsWith(s: string, p: string) {
    |p| <= |s| && s[..|p|] == p
  }

  /** The first position at or after `from` where `p` occurs in `s`. */
  function FindFrom(s: string, p: string, from: nat): (r: Option<nat>)
    requires from <= |s|
    decreases |s| - from
    ensures r.Some? ==> from <= r.value && r.value + |p| <= |s| && StartsWith(s[r.value..], p)
  {
    if StartsWith(s[from..], p) then Some(from)
    else if from == |s| then None
    else FindFrom(s, p, from + 1)
  }

  /** No occurrence of `p` starts between `from` and the position found; none starts at or after `from` when nothing is found. */
  lemma {:induction false} FindFromIsFirst(s: string, p: string, from: nat)
    requires from <= |s|
    decreases |s| - from
    ensures FindFrom(s, p, from).Some? ==> forall j | from <= j < FindFrom(s, p, from).value :: !StartsWith(s[j..], p)
    ensures FindFrom(s, p, from).None? ==> forall j | from <= j <= |s| :: !StartsWith(s[j..], p)
  {
    if !StartsWith(s[from..], p) && from < |s| {
      FindFromIsFirst(s, p, from + 1);
    }
  }

  /** `s.find(p)`: the first position where `p` occurs, if any. */
  function Find(s: string, p: string): (r: Option<nat>)
    ensures r.Some? ==> r.value + |p| <= |s| && StartsWith(s[r.value..], p)
  {
    FindFrom(s, p, 0)
  }

  /** `find` returns the first occurrence, and nothing only when `p` occurs nowhere. */
  lemma FindIsFirst(s: string, p: string)
    ensures Find(s, p).Some? ==> forall j | 0 <= j < Find(s, p).value :: !StartsWith(s[j..], p)
    ensures Find(s, p).None? ==> forall j | 0 <= j <= |s| :: !StartsWith(s[j..], p)
  {
    FindFromIsFirst(s, p, 0);
  }

  /** `p` first occurs at position `k`. */
  lemma FindAt(s: string, p: string, k: nat)
    requires k <= |s| && StartsWith(s[k..], p)
    requires forall j | 0 <= j < k :: !StartsWith(s[j..], p)
    ensures Find(s, p) == Some(k)
  {
    FindIsFirst(s, p);
  }

  /** `s.contains(p)` */
  predicate Contains(s: string, p: string) {
    Find(s, p).Some?
  }

  /** An occurrence of `p` at position `i` makes `s` contain `p`. */
  lemma ContainsAt(s: string, p: string, i: nat)
    requires i <= |s| && StartsWith(s[i..], p)
    ensures Contains(s, p)
  {
    FindIsFirst(s, p);
  }

  /** `s` contains the one-character string `[c]` exactly when `c` is one of its characters. */
  lemma ContainsChar(s: string, c: char)
    ensures Contains(s, [c]) <==> c in s
  {
    if Contains(s, [c]) {
      var k := Find(s, [c]).value;
      assert s[k..][..1][0] == s[k];
    }
    if c in s {
      var i :| 0 <= i < |s| && s[i] == c;
      assert s[i..][..1] == [c];
      ContainsAt(s, [c], i);
    }
  }

  /** `[c] + r` contains `p` exactly when `p` starts it or `r` contains `p`. */
  lemma {:induction false} ContainsCons(c: char, r: string, p: string)
    ensures Contains([c] + r, p) <==> StartsWith([c] + r, p) || Contains(r, p)
  {
    var s := [c] + r;
    if Contains(s, p) && !StartsWith(s, p) {
      var i := Find(s, p).value;
      assert i != 0;
      assert s[i..] == r[i - 1..];
      ContainsAt(r, p, i - 1);
    }
    if Contains(r, p) {
      var j := Find(r, p).value;
      assert s[j + 1..] == r[j..];
      ContainsAt(s, p, j + 1);
    }
    if StartsWith(s, p) {
      assert s[0..] == s;
      ContainsAt(s, p, 0);
    }
  }

  /** A string that contains `q`, where `q` contains `p`, contains `p`. */
  lemma {:induction false} ContainsTransitive(s: string, q: string, p: string)
    requires Contains(s, q) && Contains(q, p)
    ensures Contains(s, p)
  {
    var i := Find(s, q).value;
    var j := Find(q, p).value;
    assert s[i..][..|q|] == q;
    assert s[i + j..][..|p|] == q[j..][..|p|];
    ContainsAt(s, p, i + j);
  }

  /** `s.trim_start()` */
  function TrimStart(s: string): (r: string)
    ensures |r| <= |s|
    ensures r == [] || !IsWhitespace(r[0])
  {
    if s != [] && IsWhitespace(s[0]) then TrimStart(s[1..]) else s
  }

  /** `trim_start` keeps a suffix of its input. */
  lemma {:induction false} TrimStartIsSuffix(s: string)
    ensures TrimStart(s) == s[|s| - |TrimStart(s)|..]
  {
    if s != [] && IsWhitespace(s[0]) {
      TrimStartIsSuffix(s[1..]);
      assert s[1..][|s| - 1 - |TrimStart(s)|..] == s[|s| - |TrimStart(s)|..];
    }
  }

  /** What `trim_start` removes is whitespace. */
  lemma {:induction false} TrimStartRemovesWhitespace(s: string)
    ensures AllWhitespace(s[..|s| - |TrimStart(s)|])
  {
    if s != [] && IsWhitespace(s[0]) {
      var t := s[1..];
      var r := TrimStart(t);
      assert TrimStart(s) == r;
      TrimStartRemovesWhitespace(t);
      var k := |s| - |r|;
      forall i | 0 <= i < k ensures IsWhitespace(s[..k][i]) {
        if i > 0 {
          assert s[..k][i] == t[..k - 1][i - 1];
        }
      }
    }
  }

  /** `s.trim_end()` */
  function TrimEnd(s: string): (r: string)
    ensures |r| <= |s|
    ensures r == [] || !IsWhitespace(r[|r| - 1])
  {
    if s != [] && IsWhitespace(s[|s| - 1]) then TrimEnd(s[..|s| - 1]) else s
  }

  /** `trim_end` keeps a prefix of its input. */
  lemma {:induction false} TrimEndIsPrefix(s: string)
    ensures TrimEnd(s) == s[..|TrimEnd(s)|]
  {
    if s != [] && IsWhitespace(s[|s| - 1]) {
      TrimEndIsPrefix(s[..|s| - 1]);
    }
  }

  /** What `trim_end` removes is whitespace. */
  lemma {:induction false} TrimEndRemovesWhitespace(s: string)
    ensures AllWhitespace(s[|TrimEnd(s)|..])
  {
    if s != [] && IsWhitespace(s[|s| - 1]) {
      var t := s[..|s| - 1];
      var r := TrimEnd(t);
      assert TrimEnd(s) == r;
      TrimEndRemovesWhitespace(t);
      forall i | 0 <= i < |s| - |r| ensures IsWhitespace(s[|r|..][i]) {
        if i < |s| - 1 - |r| {
          assert s[|r|..][i] == t[|r|..][i];
        }
      }
    }
  }

  /** `s.trim()`: what is left neither starts nor ends with whitespace. */
  function Trim(s: string): (r: string)
    ensures |r| <= |s|
    ensures r == [] || (!IsWhitespace(r[0]) && !IsWhitespace(r[|r| - 1]))
  {
    var t := TrimStart(s);
    TrimEndIsPrefix(t);
    TrimEnd(t)
  }

  /** `r` stands at position `i` of `s`, with only whitespace before and after it. */
  predicate TrimAround(s: string, r: string, i: nat) {
    i + |r| <= |s| && s[i..i + |r|] == r && AllWhitespace(s[..i]) && AllWhitespace(s[i + |r|..])
  }

  /** `r`, the front of the back part `t` of `s`, stands where `t` starts, and the rest of `t` follows it. */
  lemma SliceOfSuffix<T>(s: seq<T>, t: seq<T>, r: seq<T>)
    requires |t| <= |s| && s[|s| - |t|..] == t
    requires |r| <= |t| && t[..|r|] == r
    ensures s[|s| - |t|..|s| - |t| + |r|] == r
    ensures s[|s| - |t| + |r|..] == t[|r|..]
  {
    var i := |s| - |t|;
    assert s[i..i + |r|] == s[i..][..|r|];
    assert s[i + |r|..] == s[i..][|r|..];
  }

  /** `trim` keeps the part of `s` between its leading and its trailing whitespace. */
  lemma TrimIsAround(s: string)
    ensures TrimAround(s, Trim(s), |s| - |TrimStart(s)|)
  {
    var t := TrimStart(s);
    var r := TrimEnd(t);
    TrimStartIsSuffix(s);
    TrimEndIsPrefix(t);
    TrimStartRemovesWhitespace(s);
    TrimEndRemovesWhitespace(t);
    SliceOfSuffix(s, t, r);
    assert Trim(s) == r;
  }

  /** A string without surrounding whitespace is its own trim. */
  lemma TrimUnchanged(s: string)
    requires s == [] || (!IsWhitespace(s[0]) && !IsWhitespace(s[|s| - 1]))
    ensures Trim(s) == s
  {
  }

  /** The first position of `c` in `s`, or `|s|`. */
  function IndexOf(s: string, c: char): (k: nat)
    ensures k <= |s| && (k < |s| ==> s[k] == c)
    ensures forall j | 0 <= j < k :: s[j] != c
  {
    if s == [] || s[0] == c then 0 else 1 + IndexOf(s[1..], c)
  }

  function StripCarriageReturn(l: string): (r: string)
    ensures r == l || r + "\r" == l
  {
    if |l| > 0 && l[|l| - 1] == '\r' then l[..|l| - 1] else l
  }

  /**
   * `s.lines()`: the pieces between line feeds; a line ended by a line feed
   * loses one carriage return before it, and a final line feed does not
   * start another (empty) line. Lines hold no line feed.
   */
  function Lines(s: string): seq<string>
    decreases |s|
  {
    if s == [] then []
    else
      var k := IndexOf(s, '\n');
      if k == |s| then [s]
      else [StripCarriageReturn(s[..k])] + Lines(s[k + 1..])
  }

  /** The length of the leading run of non-whitespace characters of `s`. */
  function TokenEnd(s: string): (k: nat)
    ensures k <= |s| && (k < |s| ==> IsWhitespace(s[k]))
    ensures NoWhitespace(s[..k])
  {
    if s == [] || IsWhitespace(s[0]) then 0
    else
      var k := 1 + TokenEnd(s[1..]);
      assert s[..k] == [s[0]] + s[1..][..k - 1];
      k
  }

  /** `s.split_whitespace()`: the maximal non-empty runs of non-whitespace characters, in order. */
  function Fields(s: string): (r: seq<string>)
    decreases |s|
    ensures forall i | 0 <= i < |r| :: r[i] != [] && NoWhitespace(r[i])
  {
    var t := TrimStart(s);
    if t == [] then []
    else
      var k := TokenEnd(t);
      [t[..k]] + Fields(t[k..])
  }

  /** `s.replace(pat, rep)`: every occurrence of `pat`, scanning left to right without overlap, becomes `rep`. */
  function ReplaceAll(s: string, pat: string, rep: string): string
    requires pat != []
    decreases |s|
  {
    if |s| < |pat| then s
    else if StartsWith(s, pat) then rep + ReplaceAll(s[|pat|..], pat, rep)
    else [s[0]] + ReplaceAll(s[1..], pat, rep)
  }

  /** Replacing a pattern that does not occur changes nothing. */
  lemma {:induction false} ReplaceAllAbsent(s: string, pat: string, rep: string)
    requires pat != [] && !Contains(s, pat)
    ensures ReplaceAll(s, pat, rep) == s
  {
    if |s| >= |pat| {
      assert s[0..] == s;
      ContainsCons(s[0], s[1..], pat);
      assert [s[0]] + s[1..] == s;
      ReplaceAllAbsent(s[1..], pat, rep);
    }
  }

  /** When the replacement is one character `c`, text not holding `c` is at the front of the result only if it was at the front of the input. */
  lemma {:induction false} ReplaceAllPrefix(t: string, pat: string, c: char, q: string)
    requires pat != [] && c !in q
    ensures StartsWith(ReplaceAll(t, pat, [c]), q) ==> StartsWith(t, q)
    decreases |q|
  {
    if q != [] && |t| >= |pat| {
      if StartsWith(t, pat) {
        assert ReplaceAll(t, pat, [c])[0] == c;
      } else {
        var rest := ReplaceAll(t[1..], pat, [c]);
        assert ReplaceAll(t, pat, [c]) == [t[0]] + rest;
        if StartsWith(ReplaceAll(t, pat, [c]), q) {
          assert rest[..|q| - 1] == q[1..];
          ReplaceAllPrefix(t[1..], pat, c, q[1..]);
          assert t[..|q|] == [t[0]] + t[1..][..|q| - 1];
        }
      }
    }
  }

  /** Replacing `pat` by one character that does not occur in `pat` leaves no occurrence of `pat`. */
  lemma {:induction false} ReplaceAllRemoves(s: string, pat: string, c: char)
    requires pat != [] && c !in pat
    ensures !Contains(ReplaceAll(s, pat, [c]), pat)
    decreases |s|
  {
    var r := ReplaceAll(s, pat, [c]);
    if |s| < |pat| {
    } else if StartsWith(s, pat) {
      var rest := ReplaceAll(s[|pat|..], pat, [c]);
      ReplaceAllRemoves(s[|pat|..], pat, c);
      ContainsCons(c, rest, pat);
      assert r == [c] + rest;
      assert r[0] == c;
      assert pat[0] in pat;
      if |pat| <= |r| {
        assert r[..|pat|][0] == c;
      }
    } else {
      var rest := ReplaceAll(s[1..], pat, [c]);
      ReplaceAllRemoves(s[1..], pat, c);
      ContainsCons(s[0], rest, pat);
      assert r == [s[0]] + rest;
      if StartsWith(r, pat) {
        assert rest[..|pat| - 1] == pat[1..];
        ReplaceAllPrefix(s[1..], pat, c, pat[1..]);
        assert false;
      }
    }
  }

  predicate IsDigit(c: char) {
    '0' <= c <= '9'
  }

  predicate AllDigits(s: string) {
    forall i | 0 <= i < |s| :: IsDigit(s[i])
  }

  function DigitValue(c: char): (d: nat)
    requires IsDigit(c)
    ensures d < 10
  {
    (c as int) - ('0' as int)
  }

  function DigitChar(d: nat): (c: char)
    requires d < 10
    ensures IsDigit(c) && DigitValue(c) == d
  {
    (('0' as int) + d) as char
  }

  /** The value of a string of decimal digits, most significant first. */
  function DecimalValue(s: string): nat
    requires AllDigits(s)
  {
    if s == [] then 0 else DecimalValue(s[..|s| - 1]) * 10 + DigitValue(s[|s| - 1])
  }

  /** `s.parse::<u64>()`: an optional `+`, then one or more decimal digits whose value fits in 64 bits. */
  function ParseU64(s: string): Option<U64> {
    var digits := if |s| > 0 && s[0] == '+' then s[1..] else s;
    if digits != [] && AllDigits(digits) && DecimalValue(digits) < U64_LIMIT then Some(DecimalValue(digits))
    else None
  }

  /** The shortest decimal spelling of `n`, the way `n.to_string()` writes it. */
  function Decimal(n: nat): (s: string)
    ensures s != [] && AllDigits(s) && DecimalValue(s) == n
    ensures s[0] != '0' || n == 0
  {
    if n < 10 then [DigitChar(n)]
    else
      var s := Decimal(n / 10) + [DigitChar(n % 10)];
      assert s[..|s| - 1] == Decimal(n / 10);
      s
  }

  /** Parsing reads back every 64-bit number from its decimal spelling and rejects every larger one. */
  lemma ParseU64Decimal(n: nat)
    ensures n < U64_LIMIT ==> ParseU64(Decimal(n)) == Some(n)
    ensures n >= U64_LIMIT ==> ParseU64(Decimal(n)) == None
  {
    var s := Decimal(n);
    assert IsDigit(s[0]);
  }

  /** A string with a character that is neither a digit nor a leading `+` does not parse. */
  lemma ParseU64RejectsNonDigit(s: string, i: nat)
    requires i < |s| && !IsDigit(s[i]) && (i > 0 || s[i] != '+')
    ensures ParseU64(s) == None
  {
    if |s| > 0 && s[0] == '+' {
      assert s[1..][i - 1] == s[i];
    }
  }
}
