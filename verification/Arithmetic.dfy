/** Products, quotients and remainders of natural numbers. */
module Arithmetic {

  lemma MulMono(x: nat, y: nat, b: nat)
    ensures x <= y ==> x * b <= y * b
  {
  }

  lemma MulSucc(x: nat, b: nat)
    ensures (x + 1) * b == x * b + b
  {
  }

  lemma MulPred(a: nat, b: nat)
    requires a >= 1 && b >= 1
    ensures a * b >= b && (a - 1) * b == a * b - b
  {
  }

  lemma MulAssoc(a: nat, b: nat, c: nat)
    ensures a * (b * c) == (a * b) * c
  {
  }

  lemma DoubleProduct(x: nat, p: nat)
    ensures x * (2 * p) == 2 * (x * p)
  {
  }

  lemma DivModUnique(a: nat, b: nat, q: nat, r: nat)
    requires b > 0 && a == q * b + r && r < b
    ensures a / b == q && a % b == r
  {
    MulMono(q + 1, a / b, b);
    MulMono(a / b + 1, q, b);
  }

  lemma ModSmall(len: nat, size: nat)
    requires len < size
    ensures len % size == len
  {
  }

  lemma ModStep(len: nat, size: nat)
    requires size > 0 && len >= size
    ensures (len - size) % size == len % size
  {
    var q, r := (len - size) / size, (len - size) % size;
    assert len == (q + 1) * size + r;
    DivModUnique(len, size, q + 1, r);
  }

  lemma Quotient(len: nat, size: nat)
    requires size > 0
    ensures len == size * (len / size) + len % size
    ensures len < size <==> len / size == 0
  {
    if len >= size { MulMono(len / size, 0, size); }
  }

  lemma Distribute(size: nat, a: nat, b: nat)
    ensures size * (a + b) == size * a + size * b
  {
  }

  lemma MulCommutes(a: nat, b: nat)
    ensures a * b == b * a
  {
  }
}
