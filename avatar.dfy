/**
 * The default profile picture of a new user: an index drawn from
 * `Math.floor(Math.random() * 100) + 1` and put into the URL template
 * `https://avatar.iran.liara.run/public/<idx>.png`.
 */
module Avatar {
  import opened Wrappers

  const AvatarUrlPrefix: string := "https://avatar.iran.liara.run/public/"
  const AvatarUrlSuffix: string := ".png"

  /** The number of avatars in the pool, addressed as 1..AvatarCount. */
  const AvatarCount: int := 100

  /**
   * `Math.floor(r * 100) + 1` for a draw `r` of `Math.random()`, which lies in
   * [0, 1). The product is taken exactly.
   */
  function AvatarIndex(r: real): (idx: int)
    requires 0.0 <= r < 1.0
    ensures 1 <= idx <= AvatarCount
  {
    (r * 100.0).Floor + 1
  }

  /**
   * Each index owns one hundredth of the unit interval, so a uniform draw
   * picks every avatar with the same probability.
   */
  lemma AvatarIndexUniform(r: real, k: int)
    requires 0.0 <= r < 1.0 && 1 <= k <= AvatarCount
    ensures AvatarIndex(r) == k <==> (k - 1) as real / 100.0 <= r < k as real / 100.0
  {
    var f := (r * 100.0).Floor;
    assert f as real <= r * 100.0 < f as real + 1.0;
    if AvatarIndex(r) == k {
      assert (k - 1) as real <= r * 100.0 < k as real;
    }
    if (k - 1) as real / 100.0 <= r < k as real / 100.0 {
      assert (k - 1) as real <= r * 100.0 < k as real;
    }
  }

  predicate IsDigit(c: char) {
    '0' <= c <= '9'
  }

  predicate AllDigits(s: string) {
    forall i :: 0 <= i < |s| ==> IsDigit(s[i])
  }

  /** The decimal digit for `d`. */
  function DigitChar(d: int): (c: char)
    requires 0 <= d < 10
    ensures IsDigit(c)
  {
    ['0', '1', '2', '3', '4', '5', '6', '7', '8', '9'][d]
  }

  /** The value of a decimal digit. */
  function DigitValue(c: char): (d: int)
    requires IsDigit(c)
    ensures 0 <= d < 10
  {
    c as int - '0' as int
  }

  /** `String(n)` (or the template `${n}`) for a non-negative integer `n`. */
  function Decimal(n: nat): (s: string)
    ensures |s| >= 1 && AllDigits(s)
    ensures |s| > 1 ==> s[0] != '0'
    decreases n
  {
    if n < 10 then [DigitChar(n)] else Decimal(n / 10) + [DigitChar(n % 10)]
  }

  /** The number a string of decimal digits denotes. */
  function DecimalValue(s: string): nat
    requires AllDigits(s)
  {
    if s == [] then 0 else DecimalValue(s[..|s| - 1]) * 10 + DigitValue(s[|s| - 1])
  }

  /** Reading back what `Decimal` writes yields the number. */
  lemma {:induction false} DecimalRoundTrip(n: nat)
    ensures DecimalValue(Decimal(n)) == n
    decreases n
  {
    var s := Decimal(n);
    if n < 10 {
      assert s[..0] == [];
      assert DigitValue(DigitChar(n)) == n;
    } else {
      DecimalRoundTrip(n / 10);
      assert s[..|s| - 1] == Decimal(n / 10);
      assert DigitValue(DigitChar(n % 10)) == n % 10;
    }
  }

  /** The profile picture URL for avatar `idx`. */
  function AvatarUrl(idx: int): (url: string)
    requires 1 <= idx <= AvatarCount
  {
    AvatarUrlPrefix + Decimal(idx) + AvatarUrlSuffix
  }

  /** Recovers the avatar index from a URL of the template, if it is one. */
  function ParseAvatarUrl(url: string): Option<int> {
    var p, q := |AvatarUrlPrefix|, |AvatarUrlSuffix|;
    if |url| > p + q && url[..p] == AvatarUrlPrefix && url[|url| - q..] == AvatarUrlSuffix
       && AllDigits(url[p..|url| - q])
    then Some(DecimalValue(url[p..|url| - q]))
    else None
  }

  /** Every avatar URL follows the template and names the index it was built from. */
  lemma AvatarUrlRoundTrip(idx: int)
    requires 1 <= idx <= AvatarCount
    ensures ParseAvatarUrl(AvatarUrl(idx)) == Some(idx)
  {
    var url, d := AvatarUrl(idx), Decimal(idx);
    var p, q := |AvatarUrlPrefix|, |AvatarUrlSuffix|;
    assert url[..p] == AvatarUrlPrefix;
    assert url[|url| - q..] == AvatarUrlSuffix;
    assert url[p..|url| - q] == d;
    DecimalRoundTrip(idx);
  }

  /** Distinct indices give distinct URLs. */
  lemma AvatarUrlInjective(i: int, j: int)
    requires 1 <= i <= AvatarCount && 1 <= j <= AvatarCount
    ensures AvatarUrl(i) == AvatarUrl(j) <==> i == j
  {
    AvatarUrlRoundTrip(i);
    AvatarUrlRoundTrip(j);
  }
}
