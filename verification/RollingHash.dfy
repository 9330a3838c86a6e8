/** The rolling hash of token windows, in arithmetic that wraps around at 64 bits. */
module RollingHash {
  import opened Clones

  // ---------- arithmetic of 64 bits ----------

  const WRAP: nat := 0x1_0000_0000_0000_0000
  const BASE: nat := 31337

  function Wrapped(x: int): nat {
    x % WRAP
  }

  lemma WrappedShift(x: int, k: int)
    ensures Wrapped(x + WRAP * k) == Wrapped(x)
  {
  }

  lemma WrappedTimes(a: int, b: int)
    ensures Wrapped(a * Wrapped(b)) == Wrapped(a * b)
  {
    var q := b / WRAP;
    assert b == WRAP * q + Wrapped(b);
    assert a * b == a * Wrapped(b) + WRAP * (a * q) by {
      assert a * (WRAP * q + Wrapped(b)) == a * (WRAP * q) + a * Wrapped(b);
    }
    WrappedShift(a * Wrapped(b), a * q);
  }

  // ---------- the rolling hash ----------

  type Hasher = Symbol -> nat

  /** The hash of a window from scratch. */
  function HashOf(symbols: seq<Symbol>, hash: Hasher): nat {
    if symbols == [] then 0
    else Wrapped(HashOf(symbols[..|symbols| - 1], hash) * BASE + hash(symbols[|symbols| - 1]))
  }

  /** The hash in numbers: nothing hashes to zero, and each further symbol multiplies what was there by 31337. */
  lemma HashTells(symbols: seq<Symbol>, next: Symbol, hash: Hasher)
    ensures HashOf([], hash) == 0
    ensures HashOf(symbols + [next], hash) == (HashOf(symbols, hash) * 31337 + hash(next)) % 18446744073709551616
  {
    assert (symbols + [next])[..|symbols|] == symbols;
  }

  /** One more coefficient. */
  function Extended(p: nat, next: nat): nat {
    p * BASE + next
  }

  /** The same without wrapping around. */
  function Polynomial(symbols: seq<Symbol>, hash: Hasher): nat {
    if symbols == [] then 0
    else Extended(Polynomial(symbols[..|symbols| - 1], hash), hash(symbols[|symbols| - 1]))
  }

  function Power(n: nat): nat {
    if n == 0 then 1 else Power(n - 1) * BASE
  }

  lemma {:induction false} HashIsPolynomial(symbols: seq<Symbol>, hash: Hasher)
    ensures HashOf(symbols, hash) == Wrapped(Polynomial(symbols, hash))
  {
    if symbols != [] {
      var before := symbols[..|symbols| - 1];
      HashIsPolynomial(before, hash);
      WrappedStep(Polynomial(before, hash), hash(symbols[|symbols| - 1]));
    }
  }

  lemma WrappedStep(p: int, x: int)
    ensures Wrapped(Wrapped(p) * BASE + x) == Wrapped(p * BASE + x)
  {
    assert p == WRAP * (p / WRAP) + Wrapped(p);
    WrappedShift(Wrapped(p) * BASE + x, (p / WRAP) * BASE);
  }

  /** The value of a polynomial from its first coefficient and the rest. */
  function Leading(first: nat, power: nat, rest: nat): nat {
    first * power + rest
  }

  lemma {:induction false} PolynomialFront(symbols: seq<Symbol>, hash: Hasher)
    requires symbols != []
    ensures Polynomial(symbols, hash) ==
            Leading(hash(symbols[0]), Power(|symbols| - 1), Polynomial(symbols[1..], hash))
  {
    if |symbols| == 1 {
      assert symbols[..0] == [] && symbols[1..] == [];
    } else {
      var before, rest := symbols[..|symbols| - 1], symbols[1..];
      PolynomialFront(before, hash);
      assert before[0] == symbols[0] && before[1..] == rest[..|rest| - 1];
      FrontStep(hash(symbols[0]), Power(|symbols| - 2), Polynomial(before[1..], hash));
    }
  }

  lemma FrontStep(a: nat, power: nat, p: nat)
    ensures Leading(a, power, p) * BASE == Leading(a, power * BASE, p * BASE)
  {
    assert (a * power) * BASE == a * (power * BASE);
  }

  /** What the hash becomes when the first symbol's code leaves and the next one's comes in. */
  function Rolled(h: nat, first: nat, pow: nat, next: nat): nat {
    Wrapped(Wrapped(Wrapped(h - Wrapped(first * pow)) * BASE) + next)
  }

  /** Rolling gives the hash that the next window has from scratch. */
  lemma RollingIsFresh(window: seq<Symbol>, next: Symbol, hash: Hasher)
    requires window != []
    ensures Rolled(HashOf(window, hash), hash(window[0]), Wrapped(Power(|window| - 1)), hash(next)) ==
            HashOf(window[1..] + [next], hash)
  {
    hide Rolled, Wrapped, Leading, Extended;
    HashFront(window, hash);
    HashBack(window[1..], next, hash);
    RolledTo(HashOf(window, hash), hash(window[0]), Power(|window| - 1), Polynomial(window[1..], hash), hash(next),
             HashOf(window[1..] + [next], hash));
  }

  lemma HashFront(window: seq<Symbol>, hash: Hasher)
    requires window != []
    ensures HashOf(window, hash) ==
            Wrapped(Leading(hash(window[0]), Power(|window| - 1), Polynomial(window[1..], hash)))
  {
    hide Wrapped, Leading;
    HashIsPolynomial(window, hash);
    PolynomialFront(window, hash);
  }

  lemma HashBack(symbols: seq<Symbol>, next: Symbol, hash: Hasher)
    ensures HashOf(symbols + [next], hash) == Wrapped(Extended(Polynomial(symbols, hash), hash(next)))
  {
    hide Wrapped;
    var longer := symbols + [next];
    HashIsPolynomial(longer, hash);
    assert longer[..|longer| - 1] == symbols;
  }

  lemma RolledTo(h: nat, first: nat, power: nat, rest: nat, next: nat, rolled: nat)
    requires h == Wrapped(Leading(first, power, rest)) && rolled == Wrapped(Extended(rest, next))
    ensures Rolled(h, first, Wrapped(power), next) == rolled
  {
    hide Wrapped;
    WrappedTimes(first, power);
    WrappedLess(first * power + rest, first * power);
    WrappedTwice(rest, next);
  }

  lemma WrappedLess(p: int, q: int)
    ensures Wrapped(Wrapped(p) - Wrapped(q)) == Wrapped(p - q)
  {
    WrappedShift(Wrapped(p) - Wrapped(q), p / WRAP - q / WRAP);
    assert p == WRAP * (p / WRAP) + Wrapped(p) && q == WRAP * (q / WRAP) + Wrapped(q);
  }

  lemma WrappedTwice(p: int, x: int)
    ensures Wrapped(Wrapped(Wrapped(p) * BASE) + x) == Wrapped(p * BASE + x)
  {
    WrappedStep(p, 0);
    WrappedShift(Wrapped(p * BASE) + x, (p * BASE) / WRAP);
    assert p * BASE == WRAP * ((p * BASE) / WRAP) + Wrapped(p * BASE);
  }

  lemma HashOneMore(symbols: seq<Symbol>, i: nat, hash: Hasher)
    requires i < |symbols|
    ensures HashOf(symbols[..i + 1], hash) == Wrapped(Wrapped(HashOf(symbols[..i], hash) * BASE) + hash(symbols[i]))
  {
    assert symbols[..i + 1][..i] == symbols[..i];
    HashIsPolynomial(symbols[..i], hash);
    WrappedTwice(Polynomial(symbols[..i], hash), hash(symbols[i]));
    WrappedStep(Polynomial(symbols[..i], hash), hash(symbols[i]));
  }

  method InitRollingHash(symbols: seq<Symbol>, hash: Hasher) returns (h: nat)
    ensures h == HashOf(symbols, hash)
  {
    hide Wrapped;
    h := 0;
    for i := 0 to |symbols|
      invariant h == HashOf(symbols[..i], hash)
    {
      HashOneMore(symbols, i, hash);
      h := Wrapped(Wrapped(h * BASE) + hash(symbols[i]));
    }
    assert symbols[..|symbols|] == symbols;
  }

  method CalcPowBase(exp: nat) returns (p: nat)
    ensures p == Wrapped(Power(exp))
  {
    p := 1;
    for i := 0 to exp
      invariant p == Wrapped(Power(i))
    {
      WrappedStep(Power(i), 0);
      p := Wrapped(p * BASE);
    }
  }
}
