/**
 * The few JavaScript string operations the modelled code relies on: decimal
 * notation of integers (`n.toString()`), `Number(...)` on a string of decimal
 * digits, `padStart`, `substring(0, n)` and a global one-character replace.
 */
module Texto {

  predicate EDigito(c: char) {
    '0' <= c <= '9'
  }

  predicate SoDigitos(s: string) {
    forall i :: 0 <= i < |s| ==> EDigito(s[i])
  }

  function ValorDigito(c: char): (d: nat)
    requires EDigito(c)
    ensures d < 10
  {
    c as int - '0' as int
  }

  function CaractereDigito(d: nat): (c: char)
    requires d < 10
    ensures EDigito(c) && ValorDigito(c) == d
  {
    "0123456789"[d]
  }

  /**
   * Decimal notation of a natural number, as `n.toString()` writes it: digits
   * only, and no leading zero except in "0" itself. What they read back as is
   * `ValorDeNatParaTexto`.
   */
  function NatParaTexto(n: nat): (s: string)
    ensures |s| >= 1 && SoDigitos(s)
    ensures |s| > 1 ==> s[0] != '0'
  {
    if n < 10 then [CaractereDigito(n)]
    else NatParaTexto(n / 10) + [CaractereDigito(n % 10)]
  }

  /**
   * Decimal notation of an integer, as `${i}` writes it: the digits of its
   * magnitude without a leading zero, after a `-` when it is negative.
   */
  function IntParaTexto(i: int): (s: string)
    ensures i >= 0 ==> SoDigitos(s) && |s| >= 1 && ValorDecimal(s) == i && (|s| > 1 ==> s[0] != '0')
    ensures i < 0 ==> |s| >= 2 && s[0] == '-' && SoDigitos(s[1..]) && ValorDecimal(s[1..]) == -i
                      && (|s| > 2 ==> s[1] != '0')
  {
    if i < 0 then
      ValorDeNatParaTexto(-i);
      var s := "-" + NatParaTexto(-i);
      assert s[1..] == NatParaTexto(-i);
      s
    else
      ValorDeNatParaTexto(i);
      NatParaTexto(i)
  }

  /** `Number(s)` for a string made only of decimal digits; `Number("")` is 0. */
  function ValorDecimal(s: string): (n: nat)
    requires SoDigitos(s)
  {
    if s == [] then 0 else ValorDecimal(s[..|s| - 1]) * 10 + ValorDigito(s[|s| - 1])
  }

  /** Reading back the decimal notation of `n` gives `n`. */
  lemma {:induction false} ValorDeNatParaTexto(n: nat)
    ensures ValorDecimal(NatParaTexto(n)) == n
  {
    if n >= 10 {
      var s := NatParaTexto(n);
      assert s[..|s| - 1] == NatParaTexto(n / 10);
      ValorDeNatParaTexto(n / 10);
    }
  }

  function Repetir(c: char, k: nat): (s: string)
    ensures |s| == k
    ensures forall i :: 0 <= i < k ==> s[i] == c
  {
    if k == 0 then [] else Repetir(c, k - 1) + [c]
  }

  /** `s.padStart(largura, c)` for a pad string of one character. */
  function PadStart(s: string, largura: nat, c: char): (r: string)
    ensures |r| == if |s| >= largura then |s| else largura
    ensures r[|r| - |s|..] == s
    ensures forall i :: 0 <= i < |r| - |s| ==> r[i] == c
  {
    if |s| >= largura then s else Repetir(c, largura - |s|) + s
  }

  /** Leading zeros do not change the value `Number` reads from a digit string. */
  lemma {:induction false} ValorComZerosAEsquerda(k: nat, s: string)
    requires SoDigitos(s)
    ensures SoDigitos(Repetir('0', k) + s)
    ensures ValorDecimal(Repetir('0', k) + s) == ValorDecimal(s)
    decreases k + |s|
  {
    var z := Repetir('0', k);
    if s == [] {
      assert z + s == z;
      if k > 0 {
        assert z[..k - 1] == Repetir('0', k - 1) + [];
        ValorComZerosAEsquerda(k - 1, []);
      }
    } else {
      var ini := s[..|s| - 1];
      assert (z + s)[..|z + s| - 1] == z + ini;
      ValorComZerosAEsquerda(k, ini);
    }
  }

  /** Zero-padding a digit string keeps it a digit string with the same value. */
  lemma ValorDePadStart(s: string, largura: nat)
    requires SoDigitos(s)
    ensures SoDigitos(PadStart(s, largura, '0'))
    ensures ValorDecimal(PadStart(s, largura, '0')) == ValorDecimal(s)
  {
    if |s| < largura {
      ValorComZerosAEsquerda(largura - |s|, s);
    }
  }

  /** `s.substring(0, n)`: the first `n` characters, or all of `s` when it is shorter. */
  function Prefixo(s: string, n: nat): (r: string)
    ensures |r| == if |s| <= n then |s| else n
    ensures forall i :: 0 <= i < |r| ==> r[i] == s[i]
  {
    if |s| <= n then s else s[..n]
  }

  /** `s.replace(/x/g, y)` for one-character `x` and `y`: every `de` becomes `para`. */
  function TrocarCaractere(s: string, de: char, para: char): (r: string)
    ensures |r| == |s|
    ensures forall i :: 0 <= i < |s| ==> r[i] == if s[i] == de then para else s[i]
  {
    if s == [] then []
    else TrocarCaractere(s[..|s| - 1], de, para) + [if s[|s| - 1] == de then para else s[|s| - 1]]
  }
}
