/** Quotients and remainders of naturals. */
module Division {

  lemma Apart(a: nat, b: nat, d: nat)
    requires a < b
    ensures a * d + d <= b * d
  {
    assert b * d == a * d + d + (b - a - 1) * d;
    assert (b - a - 1) * d >= 0;
  }

  lemma Quotient(n: nat, d: nat, q: nat, r: nat)
    requires n == q * d + r && r < d
    ensures n / d == q && n % d == r
  {
    var q', r' := n / d, n % d;
    assert n == q' * d + r';
    if q > q' { Apart(q', q, d); }
    if q < q' { Apart(q, q', d); }
  }

  lemma Multiple(n: nat, q: nat, d: nat)
    requires d > 0 && n == q * d
    ensures n % d == 0 && n / d == q
  {
    Quotient(n, d, q, 0);
  }

  /** The next number is in the same block or opens the next one. */
  lemma NextPosition(n: nat, d: nat)
    requires d > 0
    ensures if n % d + 1 < d then (n + 1) / d == n / d && (n + 1) % d == n % d + 1
            else (n + 1) / d == n / d + 1 && (n + 1) % d == 0
    ensures n < d <==> n / d == 0
  {
    var q, r := n / d, n % d;
    assert n == q * d + r;
    if r + 1 < d {
      Quotient(n + 1, d, q, r + 1);
    } else {
      assert n + 1 == (q + 1) * d;
      Quotient(n + 1, d, q + 1, 0);
    }
    if q > 0 { Apart(0, q, d); }
  }

  /** Adding whole blocks moves the quotient by as many. */
  lemma AddBlocks(n: nat, d: nat, m: nat)
    requires d > 0
    ensures n + m * d >= 0 && (n + m * d) / d == n / d + m && (n + m * d) % d == n % d
  {
    var q, r := n / d, n % d;
    assert m * d >= 0;
    assert (q + m) * d == q * d + m * d;
    Quotient(n + m * d, d, q + m, r);
  }

  lemma Monotone(a: nat, b: nat, d: nat)
    requires d > 0 && a <= b
    ensures a / d <= b / d
  {
    if a / d > b / d { Apart(b / d, a / d, d); }
  }

  lemma ModuloAhead(k: nat, a: nat, d: nat)
    requires d > 0
    ensures (k % d + a) % d == (k + a) % d
  {
    var q := k / d;
    AddBlocks(k % d + a, d, q);
    Whole(k, d);
  }

  lemma Whole(n: nat, d: nat)
    requires d > 0
    ensures n % d + n / d * d == n
  {
  }
}
