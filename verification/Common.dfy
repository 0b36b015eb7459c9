// Vocabulary shared by the component models.
module Common {
  datatype Option<+T> = None | Some(value: T)

  newtype byte = x: int | 0 <= x < 256

  type bytes = seq<byte>

  function U16(hi: byte, lo: byte): (n: nat)
    ensures n < 0x1_0000
  {
    hi as int * 256 + lo as int
  }

  /** b is n in two bytes, high byte first. */
  ghost predicate IsBigEndian(b: bytes, n: nat) {
    |b| == 2 && n == 256 * b[0] as int + b[1] as int
  }

  /** The two bytes of n, high byte first. Written with a choice, because division is costly where only
      the relation matters; BigEndianBytes has the quotient and the remainder. */
  ghost function U16Bytes(n: nat): (b: bytes)
    requires n < 0x1_0000
    ensures IsBigEndian(b, n) && U16(b[0], b[1]) == n
  {
    BigEndianExists(n);
    var b: bytes :| IsBigEndian(b, n);
    b
  }

  lemma BigEndianExists(n: nat)
    requires n < 0x1_0000
    ensures exists b: bytes :: IsBigEndian(b, n)
  {
    var b: bytes := [(n / 256) as byte, (n % 256) as byte];
    assert IsBigEndian(b, n);
  }

  /** The high byte is the quotient, the low byte the remainder, and reading them back gives n. */
  lemma BigEndianBytes(n: nat)
    requires n < 0x1_0000
    ensures U16Bytes(n) == [(n / 256) as byte, (n % 256) as byte]
    ensures U16((n / 256) as byte, (n % 256) as byte) == n
  {
    var b := U16Bytes(n);
    assert b[0] as int == n / 256 && b[1] as int == n % 256;
    assert b == [b[0], b[1]];
  }

  lemma U16BytesInverse(hi: byte, lo: byte)
    ensures U16Bytes(U16(hi, lo)) == [hi, lo]
  {
  }

  lemma Reassociate(first: bytes, more: bytes, tail: bytes)
    ensures first + (more + tail) == (first + more) + tail
  {
  }

  ghost predicate Nondecreasing(times: seq<real>) {
    forall i, j :: 0 <= i <= j < |times| ==> times[i] <= times[j]
  }

  function Product(rate: real, elapsed: real): real {
    elapsed * rate
  }

  ghost predicate Multiplies(f: (real, real) -> real) {
    forall rate, elapsed {:trigger Product(rate, elapsed)} :: f(rate, elapsed) == Product(rate, elapsed)
  }

  lemma MultiplicationExists()
    ensures exists f :: Multiplies(f)
  {
    var f := (rate, elapsed) => Product(rate, elapsed);
    assert Multiplies(f);
  }

  /** Tokens earned at the given rate in the given time: rate times elapsed. That it is a product is
      known only where CreditIsProduct is called, which keeps multiplication out of other proofs. */
  ghost function Credit(rate: real, elapsed: real): real {
    MultiplicationExists();
    var f :| Multiplies(f);
    f(rate, elapsed)
  }

  lemma CreditIsProduct(rate: real, elapsed: real)
    ensures Credit(rate, elapsed) == elapsed * rate
  {
    MultiplicationExists();
    var c := Product(rate, elapsed);
  }

  lemma CreditNonnegative(rate: real, elapsed: real)
    requires rate >= 0.0 && elapsed >= 0.0
    ensures Credit(rate, elapsed) >= 0.0
  {
    CreditIsProduct(rate, elapsed);
  }

  lemma CreditGrows(rate: real, higher: real, elapsed: real)
    requires rate <= higher && elapsed >= 0.0
    ensures Credit(rate, elapsed) <= Credit(higher, elapsed)
  {
    CreditIsProduct(rate, elapsed);
    CreditIsProduct(higher, elapsed);
    assert (higher - rate) * elapsed >= 0.0;
  }

  lemma CreditAdds(rate: real, first: real, second: real)
    ensures Credit(rate, first + second) == Credit(rate, first) + Credit(rate, second)
  {
    CreditIsProduct(rate, first);
    CreditIsProduct(rate, second);
    CreditIsProduct(rate, first + second);
  }

  /** The number of accepted calls among decisions[lo..hi]. */
  ghost function Count(decisions: seq<bool>, lo: nat, hi: nat): (n: nat)
    requires lo <= hi <= |decisions|
    decreases hi
  {
    if lo == hi then 0
    else Count(decisions, lo, hi - 1) + if decisions[hi - 1] then 1 else 0
  }

  lemma {:induction false} CountSplits(decisions: seq<bool>, lo: nat, mid: nat, hi: nat)
    requires lo <= mid <= hi <= |decisions|
    ensures Count(decisions, lo, hi) == Count(decisions, lo, mid) + Count(decisions, mid, hi)
    decreases hi
  {
    if mid < hi {
      CountSplits(decisions, lo, mid, hi - 1);
    }
  }
}
