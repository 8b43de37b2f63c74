/** The Go values and library functions the controller is written with: nilable
    pointers and slices, decimal conversion, substring search, splitting and
    net.JoinHostPort. */
module Go {

  /** A pointer to a value that is not updated through it. */
  datatype Ptr<+T> = Nil | Ref(v: T)

  /** A slice, which Go distinguishes from the nil slice. */
  datatype Slice<+T> = NilSlice | Elems(s: seq<T>) {
    function Seq(): seq<T> { if NilSlice? then [] else s }
  }

  /** A condition as a number, for counting. */
  function Bit(b: bool): nat { if b then 1 else 0 }

  /** strconv.Itoa. */
  function Itoa(n: int): (s: string)
    ensures |s| > 0
    decreases n < 0, if n < 0 then -n else n
  {
    if n < 0 then "-" + Itoa(-n)
    else if n < 10 then [Digit(n)]
    else Itoa(n / 10) + [Digit(n % 10)]
  }

  function Digit(d: nat): (c: char)
    requires d < 10
    ensures '0' <= c <= '9'
  {
    '0' + d as char
  }

  predicate AllDigits(s: string) {
    forall i :: 0 <= i < |s| ==> '0' <= s[i] <= '9'
  }

  function DigitsValue(s: string): nat
    requires AllDigits(s)
  {
    if s == [] then 0 else DigitsValue(s[..|s| - 1]) * 10 + (s[|s| - 1] - '0') as nat
  }

  const INT_MAX: int := 0x7FFF_FFFF_FFFF_FFFF
  const INT_MIN: int := -0x8000_0000_0000_0000

  /** strconv.Atoi; Nil is its error. */
  function Atoi(s: string): Ptr<int> {
    var signed := s != [] && (s[0] == '-' || s[0] == '+');
    var digits := if signed then s[1..] else s;
    if digits == [] || !AllDigits(digits) then Nil
    else
      var v: int := if signed && s[0] == '-' then -(DigitsValue(digits) as int) else DigitsValue(digits);
      if INT_MIN <= v <= INT_MAX then Ref(v) else Nil
  }

  lemma {:induction false} ItoaDigits(n: nat)
    ensures AllDigits(Itoa(n)) && DigitsValue(Itoa(n)) == n
    decreases n
  {
    if n >= 10 {
      ItoaDigits(n / 10);
      var s := Itoa(n);
      assert s[..|s| - 1] == Itoa(n / 10);
    }
  }

  /** No leading zeros are printed. */
  lemma {:induction false} ItoaHasNoLeadingZero(n: nat)
    ensures Itoa(n)[0] == '0' ==> Itoa(n) == "0"
    decreases n
  {
    if n >= 10 {
      ItoaHasNoLeadingZero(n / 10);
    }
  }

  /** Parsing undoes printing on the 64-bit range. */
  lemma AtoiOfItoa(n: int)
    requires INT_MIN <= n <= INT_MAX
    ensures Atoi(Itoa(n)) == Ref(n)
  {
    if n < 0 {
      ItoaDigits(-n);
      SignedDigits(Itoa(-n));
    } else {
      ItoaDigits(n);
      PlainDigits(Itoa(n));
    }
  }

  lemma PlainDigits(s: string)
    requires s != [] && AllDigits(s) && DigitsValue(s) <= INT_MAX
    ensures Atoi(s) == Ref(DigitsValue(s))
  {
    assert '0' <= s[0] <= '9';
  }

  lemma SignedDigits(s: string)
    requires s != [] && AllDigits(s) && DigitsValue(s) <= -INT_MIN
    ensures Atoi("-" + s) == Ref(-(DigitsValue(s) as int))
  {
    assert ("-" + s)[1..] == s;
  }

  /** net.JoinHostPort: a host holding a colon is bracketed. */
  function JoinHostPort(host: string, port: string): string {
    if ':' in host then "[" + host + "]:" + port else host + ":" + port
  }

  /** The text before the last colon and the text after it are determined. */
  lemma LastColonSplits(a: string, p: string, b: string, q: string)
    requires a + ":" + p == b + ":" + q
    requires ':' !in p && ':' !in q
    ensures a == b && p == q
  {
    var s := a + ":" + p;
    assert s[|a|] == ':' && s[|b|] == ':';
    assert |a| == |b|;
    assert a == s[..|a|] && b == s[..|b|];
    assert p == s[|a| + 1..] && q == s[|b| + 1..];
  }

  /** The joined key decides the host and the port, bracketed hosts included. */
  lemma JoinHostPortInjective(h1: string, p1: string, h2: string, p2: string)
    requires ':' !in p1 && ':' !in p2
    ensures JoinHostPort(h1, p1) == JoinHostPort(h2, p2) <==> h1 == h2 && p1 == p2
  {
    if JoinHostPort(h1, p1) == JoinHostPort(h2, p2) {
      var a := if ':' in h1 then "[" + h1 + "]" else h1;
      var b := if ':' in h2 then "[" + h2 + "]" else h2;
      assert JoinHostPort(h1, p1) == a + ":" + p1;
      assert JoinHostPort(h2, p2) == b + ":" + p2;
      LastColonSplits(a, p1, b, p2);
      BracketsKeepColon(h1);
      BracketsKeepColon(h2);
      assert ':' in a <==> ':' in h1;
      assert ':' in b <==> ':' in h2;
      if ':' in h1 {
        assert h1 == a[1..|a| - 1] && h2 == b[1..|b| - 1];
      }
    }
  }

  lemma BracketsKeepColon(h: string)
    ensures ':' in "[" + h + "]" <==> ':' in h
  {
    var b := "[" + h + "]";
    if ':' in h {
      var i :| 0 <= i < |h| && h[i] == ':';
      assert b[i + 1] == ':';
    }
  }

  // ---- Substring search -----------------------------------------------------

  /** `sep` occurs in `s` at position `i`. */
  predicate OccursAt(s: string, sep: string, i: nat) {
    i + |sep| <= |s| && s[i..i + |sep|] == sep
  }

  ghost predicate Free(s: string, sep: string) {
    forall i: nat :: !OccursAt(s, sep, i)
  }

  /** strings.Index from position `from`: the first occurrence, or |s| + 1 when there is none. */
  function IndexFrom(s: string, sep: string, from: nat): (k: nat)
    requires from <= |s|
    ensures k <= |s| ==> from <= k && OccursAt(s, sep, k)
    ensures forall i: nat :: from <= i < k ==> !OccursAt(s, sep, i)
    ensures k <= |s| || k == |s| + 1
    decreases |s| - from
  {
    if OccursAt(s, sep, from) then from
    else if from == |s| then |s| + 1
    else IndexFrom(s, sep, from + 1)
  }

  /** strings.Contains. */
  predicate Contains(s: string, sep: string)
    ensures Contains(s, sep) <==> !Free(s, sep)
  {
    IndexFrom(s, sep, 0) <= |s|
  }

  /** strings.Split for a non-empty separator. */
  function Split(s: string, sep: string): (parts: seq<string>)
    requires sep != []
    ensures |parts| > 0
    decreases |s|
  {
    var k := IndexFrom(s, sep, 0);
    if k > |s| then [s] else [s[..k]] + Split(s[k + |sep|..], sep)
  }

  predicate HasPrefix(s: string, prefix: string) {
    OccursAt(s, prefix, 0)
  }
}
