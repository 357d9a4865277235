/** Stand-ins for the two library calls the middleware makes while it is
    being configured: `strings.Join` and `strconv.Itoa`. */
module Text {

  /** `strings.Join`: the elements in order, with `sep` between neighbours. */
  function Join(elems: seq<string>, sep: string): (r: string)
    ensures |elems| == 0 ==> r == ""
    ensures |elems| == 1 ==> r == elems[0]
    ensures |elems| >= 1 ==> elems[0] <= r
    ensures |elems| >= 2 ==> elems[0] + sep <= r
  {
    if |elems| == 0 then ""
    else if |elems| == 1 then elems[0]
    else elems[0] + sep + Join(elems[1..], sep)
  }

  /** With a non-empty separator the join is empty exactly when there is
      nothing to join, or only one empty element. */
  lemma JoinEmptyIff(elems: seq<string>, sep: string)
    requires sep != ""
    ensures Join(elems, sep) == "" <==> (|elems| == 0 || (|elems| == 1 && elems[0] == ""))
  {
    if |elems| >= 2 {
      assert |Join(elems, sep)| >= |elems[0] + sep| > 0;
    }
  }

  predicate IsDigit(c: char) {
    '0' <= c <= '9'
  }

  function DigitChar(d: nat): (c: char)
    requires d < 10
    ensures IsDigit(c) && c as int - '0' as int == d
  {
    ('0' as int + d) as char
  }

  /** `strconv.Itoa` on a non-negative number: its shortest decimal spelling. */
  function Itoa(n: nat): (s: string)
    ensures |s| > 0
    ensures forall i :: 0 <= i < |s| ==> IsDigit(s[i])
    ensures s[0] == '0' <==> n == 0
  {
    if n < 10 then [DigitChar(n)] else Itoa(n / 10) + [DigitChar(n % 10)]
  }

  function DigitValue(c: char): (d: nat)
    requires IsDigit(c)
    ensures d < 10 && DigitChar(d) == c
  {
    c as int - '0' as int
  }

  /** The number a string of decimal digits spells, most significant first. */
  function DecimalValue(s: string): nat
    requires forall i :: 0 <= i < |s| ==> IsDigit(s[i])
  {
    if |s| == 0 then 0
    else DecimalValue(s[..|s| - 1]) * 10 + DigitValue(s[|s| - 1])
  }

  /** Reading back the decimal spelling gives the number that was spelled. */
  lemma {:induction false} ItoaRoundTrip(n: nat)
    ensures DecimalValue(Itoa(n)) == n
  {
    if n >= 10 {
      ItoaRoundTrip(n / 10);
      var s := Itoa(n);
      assert s[..|s| - 1] == Itoa(n / 10);
    }
  }

  /** No two numbers share a decimal spelling. */
  lemma ItoaInjective(m: nat, n: nat)
    requires Itoa(m) == Itoa(n)
    ensures m == n
  {
    ItoaRoundTrip(m);
    ItoaRoundTrip(n);
  }

  /** Three methods, joined as a preflight response lists them. */
  lemma JoinMethodsExample()
    ensures Join(["GET", "HEAD", "POST"], ", ") == "GET, HEAD, POST"
  {
    var xs := ["GET", "HEAD", "POST"];
    assert Join(xs[2..], ", ") == "POST";
    assert Join(xs[1..], ", ") == "HEAD, POST" by { assert xs[1..][1..] == xs[2..]; }
  }

  /** The spelling of one hour in seconds. */
  lemma ItoaExample()
    ensures Itoa(3600) == "3600"
  {
    assert Itoa(3) == "3";
    assert Itoa(36) == "36";
    assert Itoa(360) == "360";
  }
}
