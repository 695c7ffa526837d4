/**
 The ledger's value types (one row of the `movimientos` table and the daily
 summary) and the pure definitions the store's operations are specified by:
 the row order the queries produce, the rows a search selects, the rows a
 delete keeps, and the per-kind sums the summary reads.
 */
module Movimientos {
  import opened Sqlite

  /** One row of the table. `monto` is a real number: the store's binary
      floating point is not modelled. */
  datatype Movimiento = Movimiento(
    id: int,
    tipo: string,
    descripcion: string,
    categoria: string,
    monto: real,
    fecha: string)

  datatype ResumenDiario = ResumenDiario(totalIngresos: real, totalGastos: real, saldo: real)

  const Ingreso: string := "Ingreso"
  const Gasto: string := "Gasto"

  // ---------------------------------------------------------------------
  // Identity of rows

  /** The table in rowid order: AUTOINCREMENT hands out ever larger ids, so
      the stored ids are strictly increasing and in particular distinct. */
  ghost predicate IdsCrecientes(s: seq<Movimiento>)
  {
    forall i, j :: 0 <= i < j < |s| ==> s[i].id < s[j].id
  }

  /** Some row of `s` carries the id. */
  predicate TieneId(s: seq<Movimiento>, id: int)
  {
    exists i :: 0 <= i < |s| && s[i].id == id
  }

  // ---------------------------------------------------------------------
  // ORDER BY fecha DESC

  /** No row is followed by one with a later `fecha` (BINARY collation). */
  ghost predicate OrdenadoPorFechaDesc(s: seq<Movimiento>)
  {
    forall i, j :: 0 <= i < j < |s| ==> !Menor(s[i].fecha, s[j].fecha)
  }

  /** Places `m` in front of the first row with an earlier `fecha`, so rows
      with equal `fecha` keep the order they arrived in. */
  function InsertarPorFecha(s: seq<Movimiento>, m: Movimiento): (r: seq<Movimiento>)
    ensures multiset(r) == multiset(s) + multiset{m}
  {
    if s == [] then [m]
    else if Menor(s[0].fecha, m.fecha) then [m] + s
    else
      assert s == [s[0]] + s[1..];
      [s[0]] + InsertarPorFecha(s[1..], m)
  }

  /** No row of `s` has a date later than `f`. */
  ghost predicate NoPosteriorA(f: string, s: seq<Movimiento>)
  {
    forall j :: 0 <= j < |s| ==> !Menor(f, s[j].fecha)
  }

  lemma {:induction false} InsertarPorFechaAcotado(f: string, s: seq<Movimiento>, m: Movimiento)
    requires NoPosteriorA(f, s) && !Menor(f, m.fecha)
    ensures NoPosteriorA(f, InsertarPorFecha(s, m))
  {
    if s != [] && !Menor(s[0].fecha, m.fecha) {
      InsertarPorFechaAcotado(f, s[1..], m);
    }
  }

  /** Inserting into a list ordered by `fecha` descending keeps it so. */
  lemma {:induction false} InsertarPorFechaOrdenado(s: seq<Movimiento>, m: Movimiento)
    requires OrdenadoPorFechaDesc(s)
    ensures OrdenadoPorFechaDesc(InsertarPorFecha(s, m))
  {
    if s == [] {
    } else if Menor(s[0].fecha, m.fecha) {
      var r := InsertarPorFecha(s, m);
      forall j | 0 < j < |r| ensures !Menor(m.fecha, r[j].fecha) {
        MenorIrreflexivo(s[0].fecha);
        if Menor(m.fecha, s[j - 1].fecha) {
          MenorTransitivo(s[0].fecha, m.fecha, s[j - 1].fecha);
        }
      }
    } else {
      InsertarPorFechaOrdenado(s[1..], m);
      InsertarPorFechaAcotado(s[0].fecha, s[1..], m);
    }
  }

  /** The whole of `s`, placed row by row in table order. */
  function OrdenarPorFecha(s: seq<Movimiento>): seq<Movimiento>
  {
    if s == [] then []
    else InsertarPorFecha(OrdenarPorFecha(s[..|s| - 1]), s[|s| - 1])
  }

  /** One more row from the cursor is one more insertion. */
  lemma OrdenarPorFechaPaso(s: seq<Movimiento>, i: int)
    requires 0 <= i < |s|
    ensures OrdenarPorFecha(s[..i + 1]) == InsertarPorFecha(OrdenarPorFecha(s[..i]), s[i])
  {
    assert s[..i + 1][..i] == s[..i];
  }

  /** The ordering the list and search queries produce is by `fecha`,
      latest first, and loses or adds no row. */
  lemma {:induction false} OrdenarPorFechaOrdenado(s: seq<Movimiento>)
    ensures OrdenadoPorFechaDesc(OrdenarPorFecha(s))
    ensures multiset(OrdenarPorFecha(s)) == multiset(s)
  {
    if s != [] {
      assert s == s[..|s| - 1] + [s[|s| - 1]];
      OrdenarPorFechaOrdenado(s[..|s| - 1]);
      InsertarPorFechaOrdenado(OrdenarPorFecha(s[..|s| - 1]), s[|s| - 1]);
    }
  }

  // ---------------------------------------------------------------------
  // WHERE descripcion LIKE '%q%' OR categoria LIKE '%q%'

  predicate Coincide(m: Movimiento, q: string)
  {
    Like(Patron(q), m.descripcion) || Like(Patron(q), m.categoria)
  }

  /** The rows a search for `q` selects, in table order. */
  function Coincidencias(s: seq<Movimiento>, q: string): seq<Movimiento>
  {
    if s == [] then []
    else
      Coincidencias(s[..|s| - 1], q)
      + (if Coincide(s[|s| - 1], q) then [s[|s| - 1]] else [])
  }

  /** A search selects a row exactly when the table holds it and it
      matches. */
  lemma {:induction false} CoincidenciasMiembros(s: seq<Movimiento>, q: string)
    ensures forall m :: m in Coincidencias(s, q) <==> m in s && Coincide(m, q)
  {
    if s != [] {
      var ini, u := s[..|s| - 1], s[|s| - 1];
      CoincidenciasMiembros(ini, q);
      assert s == ini + [u];
    }
  }

  /** One more row from the cursor, selected or not, and the list the
      search builds from it. */
  lemma BusquedaPaso(s: seq<Movimiento>, i: int, q: string)
    requires 0 <= i < |s|
    ensures Coincide(s[i], q) ==>
      OrdenarPorFecha(Coincidencias(s[..i + 1], q))
        == InsertarPorFecha(OrdenarPorFecha(Coincidencias(s[..i], q)), s[i])
    ensures !Coincide(s[i], q) ==>
      OrdenarPorFecha(Coincidencias(s[..i + 1], q)) == OrdenarPorFecha(Coincidencias(s[..i], q))
  {
    assert s[..i + 1][..i] == s[..i];
    var c := Coincidencias(s[..i], q);
    if Coincide(s[i], q) {
      assert (c + [s[i]])[..|c|] == c;
    } else {
      assert c + [] == c;
    }
  }

  /** For a search text free of `%` and `_`, a row is selected exactly when
      its description or its category contains the text, up to ASCII case. */
  lemma CoincideEsSubcadena(m: Movimiento, q: string)
    requires SinComodines(q)
    ensures Coincide(m, q) <==> Contiene(m.descripcion, q) || Contiene(m.categoria, q)
  {
    LikeContiene(q, m.descripcion);
    LikeContiene(q, m.categoria);
  }

  /** Searching is blind to ASCII case: "bus" finds the description
      "Bus ticket". */
  lemma BusquedaIgnoraMayusculas(m: Movimiento)
    requires m.descripcion == "Bus ticket"
    ensures Coincide(m, "bus")
  {
    var q := "bus";
    assert SinComodines(q);
    assert EmpiezaCon(m.descripcion[0..], q) by {
      assert m.descripcion[0..] == m.descripcion;
      assert Plegar('B') == 'b';
    }
    LikeContiene(q, m.descripcion);
  }

  /** ... and "TRANSPORTE" finds the category "Transporte". */
  lemma BusquedaIgnoraMayusculasCategoria(m: Movimiento)
    requires m.categoria == "Transporte"
    ensures Coincide(m, "TRANSPORTE")
  {
    var q := "TRANSPORTE";
    assert SinComodines(q);
    assert EmpiezaCon(m.categoria[0..], q) by {
      assert m.categoria[0..] == m.categoria;
      forall i | 1 <= i < |q| ensures Plegar(q[i]) == m.categoria[i] {
      }
    }
    LikeContiene(q, m.categoria);
  }

  /** The empty search text selects every row. */
  lemma {:induction false} CoincidenciasVacia(s: seq<Movimiento>)
    ensures Coincidencias(s, "") == s
  {
    if s != [] {
      CoincidenciasVacia(s[..|s| - 1]);
      var ini, u := s[..|s| - 1], s[|s| - 1];
      LikeVacio(u.descripcion);
      assert Coincide(u, "");
      assert Coincidencias(s, "") == Coincidencias(ini, "") + [u];
      assert ini + [u] == s;
    }
  }

  // ---------------------------------------------------------------------
  // DELETE ... WHERE id = ?

  /** The table after removing the rows with the given id. */
  function SinId(s: seq<Movimiento>, id: int): (r: seq<Movimiento>)
    ensures |r| <= |s|
  {
    if s == [] then []
    else
      var r0 := SinId(s[..|s| - 1], id);
      if s[|s| - 1].id == id then r0 else r0 + [s[|s| - 1]]
  }

  /** A row survives the delete exactly when it was there and carries
      another id. */
  lemma {:induction false} SinIdMiembros(s: seq<Movimiento>, id: int)
    ensures forall m :: m in SinId(s, id) <==> m in s && m.id != id
  {
    if s != [] {
      var ini, u := s[..|s| - 1], s[|s| - 1];
      SinIdMiembros(ini, id);
      assert s == ini + [u];
    }
  }

  /** The rows left behind keep their rowid order. */
  lemma {:induction false} SinIdCrecientes(s: seq<Movimiento>, id: int)
    requires IdsCrecientes(s)
    ensures IdsCrecientes(SinId(s, id))
  {
    if s != [] {
      var ini, u := s[..|s| - 1], s[|s| - 1];
      assert IdsCrecientes(ini);
      SinIdCrecientes(ini, id);
      if u.id != id {
        var r0 := SinId(ini, id);
        SinIdMiembros(ini, id);
        forall k | 0 <= k < |r0| ensures r0[k].id < u.id {
          assert r0[k] in ini;
          var j :| 0 <= j < |ini| && ini[j] == r0[k];
          assert s[j] == ini[j];
        }
      }
    }
  }

  /** Deleting an id no row carries leaves the table as it was. */
  lemma {:induction false} SinIdAusente(s: seq<Movimiento>, id: int)
    requires !TieneId(s, id)
    ensures SinId(s, id) == s
  {
    if s != [] {
      var ini, u := s[..|s| - 1], s[|s| - 1];
      assert !TieneId(ini, id) by {
        forall i | 0 <= i < |ini| ensures ini[i].id != id {
          assert ini[i] == s[i];
        }
      }
      SinIdAusente(ini, id);
      assert u.id != id by {
        assert s[|s| - 1] == u;
      }
      calc {
        SinId(s, id);
        SinId(ini, id) + [u];
        ini + [u];
        { assert ini + [u] == s; }
        s;
      }
    }
  }

  /** With distinct ids, deleting removes one row when the id is present and
      none otherwise. */
  lemma {:induction false} SinIdCuenta(s: seq<Movimiento>, id: int)
    requires IdsCrecientes(s)
    ensures |SinId(s, id)| == if TieneId(s, id) then |s| - 1 else |s|
  {
    if s != [] {
      var ini, u := s[..|s| - 1], s[|s| - 1];
      assert IdsCrecientes(ini);
      SinIdCuenta(ini, id);
      if u.id == id {
        assert !TieneId(ini, id) by {
          forall i | 0 <= i < |ini| ensures ini[i].id != id {
            assert ini[i] == s[i];
          }
        }
      } else {
        assert TieneId(s, id) <==> TieneId(ini, id) by {
          if TieneId(s, id) {
            var i :| 0 <= i < |s| && s[i].id == id;
            assert ini[i] == s[i];
          }
          if TieneId(ini, id) {
            var i :| 0 <= i < |ini| && ini[i].id == id;
            assert s[i] == ini[i];
          }
        }
      }
    }
  }

  // ---------------------------------------------------------------------
  // SELECT * ... WHERE fecha = ? ORDER BY id DESC

  /** The rows of one date, last row of the table first. */
  function DelDiaIdDesc(s: seq<Movimiento>, fecha: string): (r: seq<Movimiento>)
    ensures forall m :: m in r <==> m in s && m.fecha == fecha
  {
    if s == [] then []
    else DelDiaIdDesc(s[1..], fecha) + (if s[0].fecha == fecha then [s[0]] else [])
  }

  /** Read off a table in rowid order, the rows of a date come with their
      ids strictly decreasing. */
  lemma {:induction false} DelDiaIdDescDecreciente(s: seq<Movimiento>, fecha: string)
    requires IdsCrecientes(s)
    ensures forall i, j :: 0 <= i < j < |DelDiaIdDesc(s, fecha)| ==>
      DelDiaIdDesc(s, fecha)[i].id > DelDiaIdDesc(s, fecha)[j].id
  {
    if s != [] {
      var resto := DelDiaIdDesc(s[1..], fecha);
      DelDiaIdDescDecreciente(s[1..], fecha);
      forall k | 0 <= k < |resto| ensures resto[k].id > s[0].id {
        assert resto[k] in s[1..];
        var j :| 0 <= j < |s[1..]| && s[1..][j] == resto[k];
        assert s[j + 1] == resto[k];
      }
    }
  }

  // ---------------------------------------------------------------------
  // SELECT tipo, SUM(monto) ... WHERE fecha = ? GROUP BY tipo

  /** The kinds present on a date: the groups of the summary query. */
  function TiposDelDia(s: seq<Movimiento>, fecha: string): set<string>
  {
    set m | m in s && m.fecha == fecha :: m.tipo
  }

  /** SUM(monto) over the rows of one date and one kind. */
  function SumaMonto(s: seq<Movimiento>, fecha: string, tipo: string): real
  {
    if s == [] then 0.0
    else
      (if s[0].fecha == fecha && s[0].tipo == tipo then s[0].monto else 0.0)
      + SumaMonto(s[1..], fecha, tipo)
  }

  /** Sum over the rows of one date whose kind is anything but "Ingreso":
      what the expense total is meant to be. */
  function SumaNoIngresos(s: seq<Movimiento>, fecha: string): real
  {
    if s == [] then 0.0
    else
      (if s[0].fecha == fecha && s[0].tipo != Ingreso then s[0].monto else 0.0)
      + SumaNoIngresos(s[1..], fecha)
  }

  /** The only kinds the application writes. */
  ghost predicate SoloIngresoYGasto(s: seq<Movimiento>)
  {
    forall m :: m in s ==> m.tipo == Ingreso || m.tipo == Gasto
  }

  /** A kind absent from a date sums to zero there. */
  lemma {:induction false} SumaMontoAusente(s: seq<Movimiento>, fecha: string, tipo: string)
    requires tipo !in TiposDelDia(s, fecha)
    ensures SumaMonto(s, fecha, tipo) == 0.0
  {
    if s != [] {
      assert s[0] in s;
      assert TiposDelDia(s[1..], fecha) <= TiposDelDia(s, fecha) by {
        forall t | t in TiposDelDia(s[1..], fecha) ensures t in TiposDelDia(s, fecha) {
          var m :| m in s[1..] && m.fecha == fecha && m.tipo == t;
          assert m in s;
        }
      }
      SumaMontoAusente(s[1..], fecha, tipo);
    }
  }

  /** With only the two kinds the application writes, the "Gasto" group is
      everything that is not "Ingreso". */
  lemma {:induction false} GastoEsTodoLoDemas(s: seq<Movimiento>, fecha: string)
    requires SoloIngresoYGasto(s)
    ensures SumaMonto(s, fecha, Gasto) == SumaNoIngresos(s, fecha)
  {
    if s != [] {
      assert s[0] in s;
      assert SoloIngresoYGasto(s[1..]) by {
        forall m | m in s[1..] ensures m.tipo == Ingreso || m.tipo == Gasto {
          assert m in s;
        }
      }
      GastoEsTodoLoDemas(s[1..], fecha);
    }
  }

  /** The amounts the entry form accepts are positive, so no total is
      negative. */
  lemma {:induction false} SumaMontoNoNegativa(s: seq<Movimiento>, fecha: string, tipo: string)
    requires forall m :: m in s ==> m.monto > 0.0
    ensures SumaMonto(s, fecha, tipo) >= 0.0
  {
    if s != [] {
      assert s[0] in s;
      SumaMontoNoNegativa(s[1..], fecha, tipo);
    }
  }
}
