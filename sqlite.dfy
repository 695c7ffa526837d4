/**
 The two pieces of SQLite's text semantics that the ledger's queries rely on:
 the BINARY collation used by `ORDER BY fecha` (code-point lexicographic
 order, which is the byte order of UTF-8) and the `LIKE` operator with its
 `%` and `_` wildcards, no escape character, and SQLite's default folding of
 the ASCII letters only.
 */
module Sqlite {

  /** Strict order of the BINARY collation: lexicographic on code points, a
      proper prefix sorting first. */
  predicate Menor(a: string, b: string)
  {
    if a == [] then b != []
    else if b == [] then false
    else if a[0] != b[0] then a[0] < b[0]
    else Menor(a[1..], b[1..])
  }

  lemma {:induction false} MenorIrreflexivo(a: string)
    ensures !Menor(a, a)
  {
    if a != [] {
      MenorIrreflexivo(a[1..]);
    }
  }

  lemma {:induction false} MenorTransitivo(a: string, b: string, c: string)
    requires Menor(a, b) && Menor(b, c)
    ensures Menor(a, c)
  {
    if a != [] && b != [] && c != [] && a[0] == b[0] && b[0] == c[0] {
      MenorTransitivo(a[1..], b[1..], c[1..]);
    }
  }

  /** Any two texts are comparable: the collation is a total order. */
  lemma {:induction false} MenorTotal(a: string, b: string)
    ensures a == b || Menor(a, b) || Menor(b, a)
  {
    if a != [] && b != [] && a[0] == b[0] {
      MenorTotal(a[1..], b[1..]);
      if a[1..] == b[1..] {
        assert a == [a[0]] + a[1..] && b == [b[0]] + b[1..];
      }
    }
  }

  /** SQLite's LIKE folds only 'A'..'Z' onto 'a'..'z'; every other character
      compares as it is. */
  function Plegar(c: char): (d: char)
    ensures 'A' <= c <= 'Z' ==> 'a' <= d <= 'z' && d as int - c as int == 32
    ensures !('A' <= c <= 'Z') ==> d == c
  {
    if 'A' <= c <= 'Z' then (c as int + 32) as char else c
  }

  /** Folding twice is folding once: a folded character is never an
      upper-case ASCII letter. */
  lemma PlegarIdempotente(c: char)
    ensures Plegar(Plegar(c)) == Plegar(c)
    ensures !('A' <= Plegar(c) <= 'Z')
  {
  }

  /** Two characters compare equal under LIKE exactly when they are the same
      character or one is the upper-case ASCII letter of the other; no other
      pair of characters is identified. */
  lemma PlegarIgual(a: char, b: char)
    ensures Plegar(a) == Plegar(b) <==>
      a == b
      || ('A' <= a <= 'Z' && b as int == a as int + 32)
      || ('A' <= b <= 'Z' && a as int == b as int + 32)
  {
  }

  /** `s LIKE p`: `%` matches any run of characters (also none), `_` exactly
      one character, any other pattern character one character equal to it
      up to ASCII case. */
  predicate Like(p: string, s: string)
    decreases |p| + |s|
  {
    if p == [] then s == []
    else if p[0] == '%' then Like(p[1..], s) || (s != [] && Like(p, s[1..]))
    else s != [] && (p[0] == '_' || Plegar(p[0]) == Plegar(s[0])) && Like(p[1..], s[1..])
  }

  /** The pattern the search builds around the user's text. */
  function Patron(q: string): string
  {
    "%" + q + "%"
  }

  predicate SinComodines(q: string)
  {
    forall i :: 0 <= i < |q| ==> q[i] != '%' && q[i] != '_'
  }

  /** `s` starts with `q`, up to ASCII case. */
  predicate EmpiezaCon(s: string, q: string)
  {
    |q| <= |s| && forall i :: 0 <= i < |q| ==> Plegar(q[i]) == Plegar(s[i])
  }

  /** `q` occurs somewhere in `s`, up to ASCII case. */
  predicate Contiene(s: string, q: string)
  {
    exists i :: 0 <= i <= |s| && EmpiezaCon(s[i..], q)
  }

  /** A lone `%` matches every text. */
  lemma {:induction false} LikeTodo(s: string)
    ensures Like("%", s)
  {
    if s != [] {
      LikeTodo(s[1..]);
    }
  }

  /** The empty search text builds `%%`, which matches every text. */
  lemma LikeVacio(s: string)
    ensures Like(Patron(""), s)
  {
    assert Patron("") == "%%" && Patron("")[1..] == "%";
    LikeTodo(s);
  }

  /** Without wildcards in `q`, the pattern `q%` is a case-folded prefix test. */
  lemma {:induction false} LikePrefijo(q: string, s: string)
    requires SinComodines(q)
    ensures Like(q + "%", s) <==> EmpiezaCon(s, q)
  {
    if q == [] {
      assert q + "%" == "%";
      LikeTodo(s);
    } else {
      var p := q + "%";
      assert p[0] == q[0] && p[1..] == q[1..] + "%";
      assert SinComodines(q[1..]) by {
        forall i | 0 <= i < |q[1..]| ensures q[1..][i] != '%' && q[1..][i] != '_' {
          assert q[1..][i] == q[i + 1];
        }
      }
      assert q[0] != '%' && q[0] != '_';
      if s != [] {
        LikePrefijo(q[1..], s[1..]);
        if EmpiezaCon(s, q) {
          assert EmpiezaCon(s[1..], q[1..]) by {
            forall i | 0 <= i < |q[1..]| ensures Plegar(q[1..][i]) == Plegar(s[1..][i]) {
              assert q[1..][i] == q[i + 1] && s[1..][i] == s[i + 1];
            }
          }
        }
        if Plegar(q[0]) == Plegar(s[0]) && EmpiezaCon(s[1..], q[1..]) {
          assert EmpiezaCon(s, q) by {
            forall i | 0 <= i < |q| ensures Plegar(q[i]) == Plegar(s[i]) {
              if i > 0 {
                assert q[1..][i - 1] == q[i] && s[1..][i - 1] == s[i];
              }
            }
          }
        }
      }
    }
  }

  /** Without wildcards in `q`, `s LIKE '%q%'` holds exactly when `q` occurs
      in `s` up to ASCII case. */
  lemma {:induction false} LikeContiene(q: string, s: string)
    requires SinComodines(q)
    ensures Like(Patron(q), s) <==> Contiene(s, q)
  {
    var p := Patron(q);
    assert p[1..] == q + "%";
    LikePrefijo(q, s);
    assert s[0..] == s;
    if s == [] {
      if Contiene(s, q) {
        assert EmpiezaCon(s[0..], q);
      }
    } else {
      LikeContiene(q, s[1..]);
      if Contiene(s[1..], q) {
        var i :| 0 <= i <= |s[1..]| && EmpiezaCon(s[1..][i..], q);
        assert s[1..][i..] == s[i + 1..];
        assert Contiene(s, q);
      }
      if Contiene(s, q) && !EmpiezaCon(s, q) {
        var i :| 0 <= i <= |s| && EmpiezaCon(s[i..], q);
        assert i != 0;
        assert s[1..][i - 1..] == s[i..];
        assert Contiene(s[1..], q);
      }
    }
  }

  /** `_` is a wildcard, not a literal: searching for "_" finds every
      non-empty text, whether or not it contains an underscore. */
  lemma GuionBajoEsComodin(s: string)
    requires s != []
    ensures Like(Patron("_"), s)
  {
    assert Patron("_") == ['%', '_', '%'];
    assert Like(['_', '%'], s) by {
      assert ['_', '%'][1..] == "%";
      LikeTodo(s[1..]);
    }
  }
}
