/** Precisions and the parameters by which quotients are truncated (ntp.c). */
module Truncation {
  import opened Powers
  import opened Words

  /** The number of words of the fraction to keep, and a power of ten: the lowest word is to be a multiple of it. */
  datatype Ntp = Ntp(scale: nat, submod: int)

  /** ntp keeps p digits behind the point. */
  ghost predicate Keeps(ntp: Ntp, p: nat) {
    p <= LOG * ntp.scale < p + LOG && ntp.submod == Pow(10, LOG * ntp.scale - p)
  }

  /** word_from_pow10() */
  method WordFromPow10(p: nat) returns (r: int)
    ensures r == Pow(10, p)
  {
    r := 1;
    var left: nat := p;
    while left != 0
      invariant left <= p && r * Pow(10, left) == Pow(10, p)
    {
      MulAssoc(r, 10, Pow(10, left - 1));
      r := r * 10;
      left := left - 1;
    }
  }

  /** word_ctz(): the number of trailing zeros of the binary representation. */
  function WordCtz(x: nat): nat
    requires x > 0
  {
    if x % 2 == 1 then 0 else 1 + WordCtz(x / 2)
  }

  /** A power of ten has as many trailing zeros in the binary system as in the decimal system. */
  lemma {:induction false} CtzOfPower(k: nat, odd: nat)
    requires odd % 2 == 1
    ensures Pow(2, k) * odd > 0 && WordCtz(Pow(2, k) * odd) == k
  {
    PowPositive(2, k);
    MulLe(1, odd, Pow(2, k));
    if k > 0 {
      CtzOfPower(k - 1, odd);
      MulAssoc(2, Pow(2, k - 1), odd);
    }
  }

  lemma {:induction false} OddPower(k: nat)
    ensures Pow(5, k) % 2 == 1
  {
    if k > 0 { OddPower(k - 1); }
  }

  method NtpFromPrec(prec: nat) returns (ntp: Ntp)
    ensures Keeps(ntp, prec)
  {
    var q := prec / LOG;
    var r := prec % LOG;
    Division(prec, LOG);
    if r == 0 {
      return Ntp(q, 1);
    } else {
      var submod := WordFromPow10(LOG - r);
      return Ntp(q + 1, submod);
    }
  }

  method NtpToPrec(ntp: Ntp) returns (prec: int)
    requires ntp.submod > 0
    ensures forall p: nat :: Keeps(ntp, p) ==> prec == p
  {
    prec := ntp.scale * LOG - WordCtz(ntp.submod);
    forall p: nat | Keeps(ntp, p) ensures prec == p {
      var k := LOG * ntp.scale - p;
      OddPower(k);
      PowMul(2, 5, k);
      CtzOfPower(k, Pow(5, k));
    }
  }

  /** A precision goes through ntp_from_prec() and ntp_to_prec() unchanged. */
  method PrecisionRoundTrip(prec: nat) returns (back: int)
    ensures back == prec
  {
    var ntp := NtpFromPrec(prec);
    PowPositive(10, LOG * ntp.scale - prec);
    back := NtpToPrec(ntp);
  }
}
