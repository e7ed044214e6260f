/**
 * The sort inside `calcularHorasDeMarcacoes`: `Array.prototype.sort` with the
 * comparator `a.data_hora - b.data_hora`. JavaScript's sort is stable, so
 * punches with the same instant keep the order they had in the input.
 *
 * `Ordenar` is the specification (a functional insertion sort, stable by
 * construction); `OrdenarPorHorario` sorts an array in place and is proved
 * to produce exactly `Ordenar` of the array's old contents.
 */
module Ordenacao {
  import opened Marcacoes

  /** Ascending by instant. */
  predicate Ordenada(s: seq<Marcacao>) {
    forall i, j :: 0 <= i < j < |s| ==> s[i].dataHora <= s[j].dataHora
  }

  /** Puts `x` after every element of `r` that is not later than it. */
  function Inserir(r: seq<Marcacao>, x: Marcacao): (q: seq<Marcacao>)
    ensures multiset(q) == multiset(r) + multiset{x}
  {
    if r == [] then [x]
    else if x.dataHora < r[0].dataHora then [x] + r
    else
      assert r == [r[0]] + r[1..];
      [r[0]] + Inserir(r[1..], x)
  }

  /** The stable sort by instant. */
  function Ordenar(s: seq<Marcacao>): (r: seq<Marcacao>)
    ensures multiset(r) == multiset(s)
    ensures Ordenada(r)
  {
    if s == [] then []
    else
      var ini := s[..|s| - 1];
      assert s == ini + [s[|s| - 1]];
      var r := Ordenar(ini);
      InserirPreservaOrdem(r, s[|s| - 1]);
      Inserir(r, s[|s| - 1])
  }

  /** The sort of a prefix one longer inserts the new element into the sort of the shorter one. */
  lemma {:induction false} OrdenarPrefixo(s: seq<Marcacao>, i: nat)
    requires i < |s|
    ensures Ordenar(s[..i + 1]) == Inserir(Ordenar(s[..i]), s[i])
  {
    assert s[..i + 1][..i] == s[..i];
  }

  lemma {:induction false} InserirPreservaOrdem(r: seq<Marcacao>, x: Marcacao)
    requires Ordenada(r)
    ensures Ordenada(Inserir(r, x))
  {
    if r != [] && x.dataHora >= r[0].dataHora {
      var cauda := Inserir(r[1..], x);
      InserirPreservaOrdem(r[1..], x);
      forall j | 0 <= j < |cauda|
        ensures r[0].dataHora <= cauda[j].dataHora
      {
        assert cauda[j] in multiset(cauda);
        if cauda[j] != x {
          assert cauda[j] in multiset(r[1..]);
        }
      }
      assert Inserir(r, x) == [r[0]] + cauda;
    }
  }

  lemma {:induction false} InserirDepoisDaCabeca(r: seq<Marcacao>, x: Marcacao)
    requires r != [] && r[0].dataHora <= x.dataHora
    ensures Inserir(r, x) == [r[0]] + Inserir(r[1..], x)
  {
  }

  /**
   * Where `Inserir` puts `x`: right before the first element later than it,
   * when every element before that point is not later than `x`.
   */
  lemma {:induction false} InserirEm(r: seq<Marcacao>, x: Marcacao, j: nat)
    requires j <= |r|
    requires forall k :: 0 <= k < j ==> r[k].dataHora <= x.dataHora
    requires j < |r| ==> x.dataHora < r[j].dataHora
    ensures Inserir(r, x) == r[..j] + [x] + r[j..]
  {
    if j > 0 {
      var cauda := r[1..];
      InserirDepoisDaCabeca(r, x);
      forall k | 0 <= k < j - 1
        ensures cauda[k].dataHora <= x.dataHora
      {
        assert cauda[k] == r[k + 1];
      }
      assert j - 1 < |cauda| ==> cauda[j - 1] == r[j];
      InserirEm(cauda, x, j - 1);
      InseridoNaCauda(r, x, j);
    } else if r != [] {
      assert r[j..] == r;
    }
  }

  lemma {:induction false} InseridoNaCauda(r: seq<Marcacao>, x: Marcacao, j: nat)
    requires 0 < j <= |r|
    ensures r[..j] + [x] + r[j..] == [r[0]] + (r[1..][..j - 1] + [x] + r[1..][j - 1..])
  {
    assert r[..j] == [r[0]] + r[1..][..j - 1];
    assert r[j..] == r[1..][j - 1..];
  }

  /** A list already in ascending order comes out of the sort unchanged. */
  lemma {:induction false} OrdenarOrdenada(s: seq<Marcacao>)
    requires Ordenada(s)
    ensures Ordenar(s) == s
  {
    if s != [] {
      var ini := s[..|s| - 1];
      OrdenarOrdenada(ini);
      InserirEm(ini, s[|s| - 1], |ini|);
      assert ini + [s[|s| - 1]] == s;
    }
  }

  /** The punches of `s` with instant `t`, in the order of `s`. */
  function ComHorario(s: seq<Marcacao>, t: int): (r: seq<Marcacao>)
    ensures forall i :: 0 <= i < |r| ==> r[i].dataHora == t && r[i] in s
  {
    if s == [] then []
    else (if s[0].dataHora == t then [s[0]] else []) + ComHorario(s[1..], t)
  }

  lemma {:induction false} ComHorarioConcat(a: seq<Marcacao>, b: seq<Marcacao>, t: int)
    ensures ComHorario(a + b, t) == ComHorario(a, t) + ComHorario(b, t)
  {
    if a != [] {
      assert (a + b)[1..] == a[1..] + b;
      ComHorarioConcat(a[1..], b, t);
    } else {
      assert a + b == b;
    }
  }

  lemma {:induction false} ComHorarioVazio(s: seq<Marcacao>, t: int)
    requires forall i :: 0 <= i < |s| ==> s[i].dataHora > t
    ensures ComHorario(s, t) == []
  {
    if s != [] {
      ComHorarioVazio(s[1..], t);
    }
  }

  lemma {:induction false} InserirEstavel(r: seq<Marcacao>, x: Marcacao, t: int)
    requires Ordenada(r)
    ensures ComHorario(Inserir(r, x), t) == ComHorario(r, t) + ComHorario([x], t)
  {
    if r == [] {
      assert [x] == [x] + r;
    } else if x.dataHora < r[0].dataHora {
      InserirNaFrenteEstavel(r, x, t);
    } else {
      assert Ordenada(r[1..]);
      InserirEstavel(r[1..], x, t);
      DepoisDaCabecaEstavel(r, x, t);
    }
  }

  /** An element not earlier than the head goes into the tail, and the head keeps its place in front. */
  lemma {:induction false} DepoisDaCabecaEstavel(r: seq<Marcacao>, x: Marcacao, t: int)
    requires r != [] && r[0].dataHora <= x.dataHora
    requires ComHorario(Inserir(r[1..], x), t) == ComHorario(r[1..], t) + ComHorario([x], t)
    ensures ComHorario(Inserir(r, x), t) == ComHorario(r, t) + ComHorario([x], t)
  {
    var cabeca, cauda, xs := ComHorario([r[0]], t), ComHorario(r[1..], t), ComHorario([x], t);
    calc {
      ComHorario(Inserir(r, x), t);
      == { InserirDepoisDaCabeca(r, x); }
      ComHorario([r[0]] + Inserir(r[1..], x), t);
      == { ComHorarioConcat([r[0]], Inserir(r[1..], x), t); }
      cabeca + (cauda + xs);
      ==
      (cabeca + cauda) + xs;
      == { ComHorarioConcat([r[0]], r[1..], t); assert [r[0]] + r[1..] == r; }
      ComHorario(r, t) + xs;
    }
  }

  /** An element earlier than the whole ascending list goes in front, before anything with its instant. */
  lemma {:induction false} InserirNaFrenteEstavel(r: seq<Marcacao>, x: Marcacao, t: int)
    requires Ordenada(r) && r != [] && x.dataHora < r[0].dataHora
    ensures ComHorario(Inserir(r, x), t) == ComHorario(r, t) + ComHorario([x], t)
  {
    assert Inserir(r, x) == [x] + r;
    ComHorarioConcat([x], r, t);
    if x.dataHora == t {
      assert forall i :: 0 <= i < |r| ==> r[i].dataHora > t by {
        forall i | 0 <= i < |r|
          ensures r[i].dataHora > t
        {
          assert r[0].dataHora <= r[i].dataHora;
        }
      }
      ComHorarioVazio(r, t);
    }
  }

  /** Stability: the punches sharing an instant keep their relative input order. */
  lemma {:induction false} OrdenarEstavel(s: seq<Marcacao>, t: int)
    ensures ComHorario(Ordenar(s), t) == ComHorario(s, t)
  {
    if s != [] {
      var n := |s| - 1;
      var ini := s[..n];
      calc {
        ComHorario(Ordenar(s), t);
        == { OrdenarPrefixo(s, n); assert s[..n + 1] == s; }
        ComHorario(Inserir(Ordenar(ini), s[n]), t);
        == { InserirEstavel(Ordenar(ini), s[n], t); }
        ComHorario(Ordenar(ini), t) + ComHorario([s[n]], t);
        == { OrdenarEstavel(ini, t); }
        ComHorario(ini, t) + ComHorario([s[n]], t);
        == { ComHorarioConcat(ini, [s[n]], t); assert ini + [s[n]] == s; }
        ComHorario(s, t);
      }
    }
  }

  /** No two punches of `s` share an instant. */
  predicate HorariosDistintos(s: seq<Marcacao>) {
    forall i, j :: 0 <= i < j < |s| ==> s[i].dataHora != s[j].dataHora
  }

  /**
   * Two ascending lists with the same punches are equal when no two of
   * those punches share an instant.
   */
  lemma {:induction false} OrdenadasIguais(u: seq<Marcacao>, v: seq<Marcacao>)
    requires Ordenada(u) && Ordenada(v) && multiset(u) == multiset(v)
    requires forall i, j :: 0 <= i < |u| && 0 <= j < |u| && u[i].dataHora == u[j].dataHora ==> u[i] == u[j]
    ensures u == v
  {
    if u == [] {
      assert |multiset(v)| == 0;
    } else {
      assert v != [] by {
        assert u[0] in multiset(v);
      }
      assert u[0] == v[0] by {
        assert u[0] in multiset(v);
        assert v[0] in multiset(u);
        var i :| 0 <= i < |v| && v[i] == u[0];
        var j :| 0 <= j < |u| && u[j] == v[0];
        assert u[0].dataHora == u[j].dataHora;
      }
      MesmaCabeca(u, v);
      OrdenadasIguais(u[1..], v[1..]);
      assert u == [u[0]] + u[1..];
      assert v == [v[0]] + v[1..];
    }
  }

  lemma {:induction false} MesmaCabeca(u: seq<Marcacao>, v: seq<Marcacao>)
    requires u != [] && v != [] && u[0] == v[0] && multiset(u) == multiset(v)
    ensures multiset(u[1..]) == multiset(v[1..])
  {
    assert u == [u[0]] + u[1..];
    assert v == [v[0]] + v[1..];
    assert multiset(u) == multiset{u[0]} + multiset(u[1..]);
    assert multiset(v) == multiset{v[0]} + multiset(v[1..]);
    assert multiset(u[1..]) == multiset(u) - multiset{u[0]};
    assert multiset(v[1..]) == multiset(v) - multiset{v[0]};
  }

  /** With distinct instants the sort's result depends only on which punches there are. */
  lemma OrdenarIndependeDaOrdem(s1: seq<Marcacao>, s2: seq<Marcacao>)
    requires multiset(s1) == multiset(s2)
    requires HorariosDistintos(s1)
    ensures Ordenar(s1) == Ordenar(s2)
  {
    var u := Ordenar(s1);
    forall i, j | 0 <= i < |u| && 0 <= j < |u| && u[i].dataHora == u[j].dataHora
      ensures u[i] == u[j]
    {
      assert u[i] in multiset(s1) && u[j] in multiset(s1);
      var p :| 0 <= p < |s1| && s1[p] == u[i];
      var q :| 0 <= q < |s1| && s1[q] == u[j];
      assert p == q;
    }
    OrdenadasIguais(u, Ordenar(s2));
  }

  /** Sorts `a` in place by instant, stably, as `Array.prototype.sort` does. */
  method OrdenarPorHorario(a: array<Marcacao>)
    modifies a
    ensures a[..] == Ordenar(old(a[..]))
  {
    ghost var s := a[..];
    var i := 0;
    while i < a.Length
      invariant 0 <= i <= a.Length
      invariant a[..i] == Ordenar(s[..i])
      invariant a[i..] == s[i..]
    {
      assert a[i] == s[i] by {
        assert a[i..][0] == s[i..][0];
      }
      InserirNoPrefixo(a, i);
      OrdenarPrefixo(s, i);
      assert a[i + 1..] == s[i + 1..] by {
        assert s[i + 1..] == s[i..][1..];
      }
      i := i + 1;
    }
    assert s[..a.Length] == s;
  }

  /**
   * One step of the insertion sort: moves `a[i]` left past the later
   * punches of the sorted prefix `a[..i]`.
   */
  method InserirNoPrefixo(a: array<Marcacao>, i: nat)
    requires i < a.Length
    requires Ordenada(a[..i])
    modifies a
    ensures a[..i + 1] == Inserir(old(a[..i]), old(a[i]))
    ensures a[i + 1..] == old(a[i + 1..])
  {
    var x := a[i];
    ghost var prefixo := a[..i];
    var j := i;
    while j > 0 && a[j - 1].dataHora > x.dataHora
      invariant 0 <= j <= i
      invariant a[..j] == prefixo[..j]
      invariant a[j + 1..i + 1] == prefixo[j..]
      invariant a[i + 1..] == old(a[i + 1..])
      invariant forall k :: j <= k < i ==> x.dataHora < prefixo[k].dataHora
    {
      ghost var antes := a[..];
      a[j] := a[j - 1];
      Deslocamento(antes, a[..], prefixo, j, i);
      j := j - 1;
    }
    ghost var antes := a[..];
    a[j] := x;
    Colocacao(antes, a[..], prefixo, x, j, i);
    InserirEm(prefixo, x, j);
  }

  /** One step of the shift: the element left of the gap moves into it, and the gap moves one to the left. */
  lemma {:induction false} Deslocamento(antes: seq<Marcacao>, depois: seq<Marcacao>, prefixo: seq<Marcacao>, j: nat, i: nat)
    requires 0 < j <= i < |antes| && |prefixo| == i
    requires depois == antes[j := antes[j - 1]]
    requires antes[..j] == prefixo[..j] && antes[j + 1..i + 1] == prefixo[j..]
    ensures depois[..j - 1] == prefixo[..j - 1]
    ensures depois[j..i + 1] == prefixo[j - 1..]
    ensures depois[i + 1..] == antes[i + 1..]
    ensures antes[j - 1] == prefixo[j - 1]
  {
    assert antes[j - 1] == prefixo[j - 1] by {
      assert antes[..j][j - 1] == prefixo[..j][j - 1];
    }
    assert depois[j..i + 1] == [prefixo[j - 1]] + antes[j + 1..i + 1];
  }

  /** Writing the held element into the gap yields the prefix with it inserted at the gap. */
  lemma {:induction false} Colocacao(antes: seq<Marcacao>, depois: seq<Marcacao>, prefixo: seq<Marcacao>, x: Marcacao, j: nat, i: nat)
    requires j <= i < |antes| && |prefixo| == i
    requires depois == antes[j := x]
    requires antes[..j] == prefixo[..j] && antes[j + 1..i + 1] == prefixo[j..]
    ensures depois[..i + 1] == prefixo[..j] + [x] + prefixo[j..]
    ensures depois[i + 1..] == antes[i + 1..]
    ensures j > 0 ==> antes[j - 1] == prefixo[j - 1]
  {
    if j > 0 {
      assert antes[..j][j - 1] == prefixo[..j][j - 1];
    }
    assert depois[..i + 1] == antes[..j] + [x] + antes[j + 1..i + 1];
  }
}
