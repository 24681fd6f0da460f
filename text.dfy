/** The pieces of Go's `strings` and `fmt` packages that the commenter uses.
    A Go string is a sequence of bytes; here each `char` stands for one byte,
    and case mapping is the ASCII one. */
module Text {

  import opened Results

  /** `strings.HasPrefix(s, p)`. */
  predicate HasPrefix(s: string, p: string) {
    |p| <= |s| && s[..|p|] == p
  }

  /** `t` occurs in `s` starting at byte offset `k`. */
  predicate OccursAt(s: string, t: string, k: int) {
    0 <= k && k + |t| <= |s| && s[k..k + |t|] == t
  }

  lemma OccursAtShift(s: string, t: string)
    requires |s| > 0
    ensures forall k :: 0 < k ==> (OccursAt(s, t, k) <==> OccursAt(s[1..], t, k - 1))
  {
    forall k | 0 < k
      ensures OccursAt(s, t, k) <==> OccursAt(s[1..], t, k - 1)
    {
      if k + |t| <= |s| {
        assert s[1..][k - 1..k - 1 + |t|] == s[k..k + |t|];
      }
    }
  }

  /** `strings.Index(s, t)`: the offset of the first occurrence of `t` in `s`,
      or -1 when there is none. */
  function Index(s: string, t: string): (r: int)
    ensures -1 <= r
    ensures r >= 0 ==> OccursAt(s, t, r)
    ensures forall k :: 0 <= k < (if r < 0 then |s| + 1 else r) ==> !OccursAt(s, t, k)
    decreases |s|
  {
    if HasPrefix(s, t) then 0
    else if |s| == 0 then -1
    else
      var r := Index(s[1..], t);
      OccursAtShift(s, t);
      assert !OccursAt(s, t, 0) by { if |t| <= |s| { assert s[..|t|] == s[0..|t|]; } }
      if r < 0 then -1 else r + 1
  }

  /** `strings.Contains(s, t)`: `t` starts at some offset of `s`. */
  predicate Contains(s: string, t: string)
    decreases |s|
  {
    HasPrefix(s, t) || (|s| > 0 && Contains(s[1..], t))
  }

  /** `t` is contained in `s` exactly when `strings.Index` finds it, that is,
      when it occurs somewhere in `s`. */
  lemma {:induction false} ContainsIndex(s: string, t: string)
    ensures Contains(s, t) <==> Index(s, t) >= 0
    ensures Contains(s, t) <==> exists k :: OccursAt(s, t, k)
    decreases |s|
  {
    if HasPrefix(s, t) {
      assert OccursAt(s, t, 0) by { assert s[0..|t|] == s[..|t|]; }
    } else if |s| > 0 {
      ContainsIndex(s[1..], t);
      OccursAtShift(s, t);
      assert !OccursAt(s, t, 0) by { if |t| <= |s| { assert s[..|t|] == s[0..|t|]; } }
      if Contains(s[1..], t) {
        var k :| OccursAt(s[1..], t, k);
        assert OccursAt(s, t, k + 1);
      }
    } else {
      assert forall k :: !OccursAt(s, t, k);
    }
  }

  /** `strings.LastIndex(s, string(c))` for a one-byte needle. */
  function LastIndexByte(s: string, c: char): (r: int)
    ensures -1 <= r < |s|
    ensures r >= 0 ==> s[r] == c
    ensures forall i :: r < i < |s| ==> s[i] != c
  {
    if |s| == 0 then -1
    else if s[|s| - 1] == c then |s| - 1
    else LastIndexByte(s[..|s| - 1], c)
  }

  /** `strings.Replace(s, pat, rep, 1)`: only the first occurrence of `pat`
      is replaced. */
  function ReplaceFirst(s: string, pat: string, rep: string): (r: string)
    ensures (forall k :: !OccursAt(s, pat, k)) ==> r == s
  {
    var i := Index(s, pat);
    if i < 0 then s else s[..i] + rep + s[i + |pat|..]
  }

  /** When the first occurrence of `pat` in `a + pat + b` is the one right
      after `a`, `ReplaceFirst` replaces that one and leaves `b` untouched,
      later occurrences of `pat` included. */
  lemma ReplaceFirstOccurrence(a: string, pat: string, b: string, rep: string)
    requires forall k :: 0 <= k < |a| ==> !OccursAt(a + pat + b, pat, k)
    ensures ReplaceFirst(a + pat + b, pat, rep) == a + rep + b
  {
    var s := a + pat + b;
    assert OccursAt(s, pat, |a|) by {
      assert s[|a|..|a| + |pat|] == pat;
    }
    var i := Index(s, pat);
    assert i == |a|;
    assert s[..i] == a;
    assert s[i + |pat|..] == b;
  }

  /** The first line of `s`: `strings.Split(s, "\n")[0]`. */
  function FirstLine(s: string): (r: string)
    ensures HasPrefix(s, r)
    ensures '\n' !in r
    ensures |r| == |s| || s[|r|] == '\n'
  {
    var i := Index(s, "\n");
    if i < 0 then
      assert forall k :: 0 <= k < |s| ==> s[k] != '\n' by {
        forall k | 0 <= k < |s| ensures s[k] != '\n' {
          assert !OccursAt(s, "\n", k);
          assert s[k..k + 1] == [s[k]];
        }
      }
      s
    else
      assert s[i..i + 1] == "\n";
      assert forall k :: 0 <= k < i ==> s[k] != '\n' by {
        forall k | 0 <= k < i ensures s[k] != '\n' {
          assert !OccursAt(s, "\n", k);
          assert s[k..k + 1] == [s[k]];
        }
      }
      s[..i]
  }

  /** `unicode.IsSpace` restricted to single bytes: the six ASCII white-space
      characters (the only ones `strings.Fields` sees in a one-byte rune). */
  predicate IsSpace(c: char) {
    c == ' ' || c == '\t' || c == '\n' || c == '\U{0B}' || c == '\U{0C}' || c == '\r'
  }

  /** Number of leading white-space bytes of `s`. */
  function SkipSpaces(s: string): (r: nat)
    ensures r <= |s|
    ensures forall i :: 0 <= i < r ==> IsSpace(s[i])
    ensures r < |s| ==> !IsSpace(s[r])
  {
    if |s| == 0 || !IsSpace(s[0]) then 0 else 1 + SkipSpaces(s[1..])
  }

  /** Number of leading non-white-space bytes of `s`. */
  function WordLength(s: string): (r: nat)
    ensures r <= |s|
    ensures forall i :: 0 <= i < r ==> !IsSpace(s[i])
    ensures r < |s| ==> IsSpace(s[r])
  {
    if |s| == 0 || IsSpace(s[0]) then 0 else 1 + WordLength(s[1..])
  }

  /** `f` is the first white-space separated field of `s`, starting at `k`. */
  ghost predicate IsFirstField(s: string, k: nat, f: string) {
    && k + |f| <= |s|
    && s[k..k + |f|] == f
    && (forall i :: 0 <= i < k ==> IsSpace(s[i]))
    && (k + |f| == |s| || IsSpace(s[k + |f|]))
  }

  /** `strings.Fields(s)[0]`, or `None` when `strings.Fields(s)` is empty. */
  function FirstField(s: string): (r: Option<string>)
    ensures r.None? <==> forall i :: 0 <= i < |s| ==> IsSpace(s[i])
    ensures r.Some? ==> |r.value| > 0 && forall i :: 0 <= i < |r.value| ==> !IsSpace(r.value[i])
    ensures r.Some? ==> exists k :: IsFirstField(s, k, r.value)
  {
    var k := SkipSpaces(s);
    if k == |s| then None
    else
      var w := WordLength(s[k..]);
      var f := s[k..k + w];
      assert IsFirstField(s, k, f);
      Some(f)
  }

  /** The decimal digits of `n`, as `fmt`'s `%d` prints them. */
  function NatToString(n: nat): (r: string)
    ensures |r| > 0
    ensures forall i :: 0 <= i < |r| ==> '0' <= r[i] <= '9'
  {
    var d := ['0' + (n % 10) as char];
    if n < 10 then d else NatToString(n / 10) + d
  }

  /** Different numbers print differently: the last digit is the number
      modulo ten and the digits before it print the number divided by ten. */
  lemma {:induction false} NatToStringInjective(a: nat, b: nat)
    requires NatToString(a) == NatToString(b)
    ensures a == b
  {
    var ra, rb := NatToString(a), NatToString(b);
    assert ra[|ra| - 1] == '0' + (a % 10) as char;
    assert rb[|rb| - 1] == '0' + (b % 10) as char;
    assert a % 10 == b % 10;
    if a >= 10 && b >= 10 {
      assert ra[..|ra| - 1] == NatToString(a / 10);
      assert rb[..|rb| - 1] == NatToString(b / 10);
      NatToStringInjective(a / 10, b / 10);
    }
  }

  /** `fmt`'s `%d` for a signed integer. */
  function IntToString(n: int): (r: string)
    ensures |r| > 0
    ensures r[0] == '-' <==> n < 0
    ensures forall i :: (if n < 0 then 1 else 0) <= i < |r| ==> '0' <= r[i] <= '9'
  {
    if n < 0 then "-" + NatToString(-n) else NatToString(n)
  }

  /** Different integers print differently: the sign tells negative from
      non-negative, and the digits after it are injective. */
  lemma IntToStringInjective(a: int, b: int)
    requires IntToString(a) == IntToString(b)
    ensures a == b
  {
    var ra, rb := IntToString(a), IntToString(b);
    assert (a < 0) == (b < 0) by { assert ra[0] == rb[0]; }
    if a < 0 {
      assert ra[1..] == NatToString(-a);
      assert rb[1..] == NatToString(-b);
      NatToStringInjective(-a, -b);
    } else {
      NatToStringInjective(a, b);
    }
  }

  /** `strings.ToUpper` on one ASCII byte. */
  function ToUpperByte(c: char): (r: char)
    ensures 'a' <= c <= 'z' ==> r as int == c as int - 32
    ensures !('a' <= c <= 'z') ==> r == c
  {
    if 'a' <= c <= 'z' then (c as int - 32) as char else c
  }

  /** `strings.ToUpper(string(s[0])) + s[1:]`. */
  function UpperFirst(s: string): (r: string)
    requires |s| > 0
    ensures |r| == |s|
    ensures r[0] == ToUpperByte(s[0])
    ensures forall i :: 0 < i < |s| ==> r[i] == s[i]
  {
    [ToUpperByte(s[0])] + s[1..]
  }

  /** The concatenation of a sequence of strings, in order. */
  function Concat(ss: seq<string>): string {
    if |ss| == 0 then "" else ss[0] + Concat(ss[1..])
  }
}
