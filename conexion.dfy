/**
 The ledger store: the `movimientos` table as a sequence of rows in rowid
 order, the table's AUTOINCREMENT counter, and the operations of
 `ConexionSQLite` that write and query it.
 */
module Conexion {
  import opened Sqlite
  import opened Movimientos

  /** Largest rowid SQLite can hand out (a signed 64-bit integer). */
  const MaxRowId: int := 0x7FFF_FFFF_FFFF_FFFF

  class ConexionSQLite {
    /** The rows of the table, in rowid order. */
    var filas: seq<Movimiento>
    /** One more than the table's entry in sqlite_sequence: the id the next
        insert receives. */
    var siguienteId: int
    /** Every id this table has handed out since it was created. */
    ghost var emitidos: set<int>

    ghost predicate Valid()
      reads this
    {
      && IdsCrecientes(filas)
      && (forall m :: m in filas ==> m.id in emitidos)
      && (forall x :: x in emitidos ==> 0 < x < siguienteId)
      && 0 < siguienteId <= MaxRowId + 1
    }

    /** CREATE TABLE: a new, empty table whose first id will be 1. */
    constructor ()
      ensures Valid()
      ensures filas == [] && siguienteId == 1 && emitidos == {}
    {
      filas := [];
      siguienteId := 1;
      emitidos := {};
    }

    /** DROP TABLE and CREATE TABLE again: every row is lost, and with the
        table its sqlite_sequence entry, so ids start over from 1. */
    method OnUpgrade(oldVersion: int, newVersion: int)
      modifies this
      ensures Valid()
      ensures filas == [] && siguienteId == 1 && emitidos == {}
    {
      filas := [];
      siguienteId := 1;
      emitidos := {};
    }

    /** INSERT of one row with a fresh id. `falla` stands for a storage error
        raised by the engine, which the source catches and reports as false;
        the insert also fails once the sequence has reached the largest rowid
        (SQLITE_FULL). A failed insert changes nothing. */
    method InsertarMovimiento(tipo: string, descripcion: string, categoria: string,
                              monto: real, fecha: string, falla: bool) returns (ok: bool)
      requires Valid()
      modifies this
      ensures Valid()
      ensures ok == (!falla && old(siguienteId) <= MaxRowId)
      ensures ok ==> old(siguienteId) !in old(emitidos)
      ensures ok ==> forall m :: m in old(filas) ==> m.id < old(siguienteId)
      ensures ok ==> filas == old(filas) + [Movimiento(old(siguienteId), tipo, descripcion, categoria, monto, fecha)]
      ensures ok ==> emitidos == old(emitidos) + {old(siguienteId)} && siguienteId == old(siguienteId) + 1
      ensures !ok ==> filas == old(filas) && siguienteId == old(siguienteId) && emitidos == old(emitidos)
    {
      if falla || siguienteId > MaxRowId {
        return false;
      }
      var nuevo := Movimiento(siguienteId, tipo, descripcion, categoria, monto, fecha);
      filas := filas + [nuevo];
      emitidos := emitidos + {siguienteId};
      siguienteId := siguienteId + 1;
      ok := true;
    }

    /** UPDATE ... WHERE id = ?: all five columns of the row with that id are
        replaced and its id kept. An id no row carries affects nothing and the
        result is still true; only a storage error gives false. */
    method ActualizarMovimiento(id: int, tipo: string, descripcion: string, categoria: string,
                                monto: real, fecha: string, falla: bool) returns (ok: bool)
      requires Valid()
      modifies this
      ensures Valid()
      ensures ok == !falla
      ensures siguienteId == old(siguienteId) && emitidos == old(emitidos)
      ensures |filas| == |old(filas)|
      ensures ok ==> forall i :: 0 <= i < |filas| ==>
        filas[i] == if old(filas)[i].id == id
                    then Movimiento(id, tipo, descripcion, categoria, monto, fecha)
                    else old(filas)[i]
      ensures !ok ==> filas == old(filas)
      ensures !TieneId(old(filas), id) ==> filas == old(filas)
    {
      if falla {
        return false;
      }
      var viejas := filas;
      var nueva := Movimiento(id, tipo, descripcion, categoria, monto, fecha);
      filas := seq(|viejas|, i requires 0 <= i < |viejas| => if viejas[i].id == id then nueva else viejas[i]);
      assert forall i :: 0 <= i < |filas| ==> filas[i].id == viejas[i].id;
      assert forall m :: m in filas ==> m.id in emitidos by {
        forall m | m in filas ensures m.id in emitidos {
          var i :| 0 <= i < |filas| && filas[i] == m;
          assert viejas[i] in viejas;
        }
      }
      if !TieneId(viejas, id) {
        assert filas == viejas;
      }
      ok := true;
    }

    /** DELETE ... WHERE id = ?: no row with that id remains and every other
        row stays, so the table shrinks by one exactly when the id was there.
        An absent id is still reported as true. */
    method EliminarMovimiento(id: int, falla: bool) returns (ok: bool)
      requires Valid()
      modifies this
      ensures Valid()
      ensures ok == !falla
      ensures siguienteId == old(siguienteId) && emitidos == old(emitidos)
      ensures ok ==> filas == SinId(old(filas), id)
      ensures ok ==> forall m :: m in filas <==> m in old(filas) && m.id != id
      ensures ok ==> |filas| == if TieneId(old(filas), id) then |old(filas)| - 1 else |old(filas)|
      ensures !ok || !TieneId(old(filas), id) ==> filas == old(filas)
    {
      if falla {
        return false;
      }
      SinIdCuenta(filas, id);
      SinIdMiembros(filas, id);
      SinIdCrecientes(filas, id);
      if !TieneId(filas, id) {
        SinIdAusente(filas, id);
      }
      filas := SinId(filas, id);
      ok := true;
    }

    /** SELECT * ORDER BY fecha DESC, read off the cursor into a list. The
        engine's sort is done here, one row at a time as the cursor yields
        the table: the result holds every row exactly as often as the table
        does, latest date first. */
    method ObtenerTodosMovimientos() returns (lista: seq<Movimiento>)
      ensures lista == OrdenarPorFecha(filas)
      ensures multiset(lista) == multiset(filas)
      ensures OrdenadoPorFechaDesc(lista)
    {
      lista := [];
      var i := 0;
      while i < |filas|
        invariant 0 <= i <= |filas|
        invariant lista == OrdenarPorFecha(filas[..i])
      {
        OrdenarPorFechaPaso(filas, i);
        lista := InsertarPorFecha(lista, filas[i]);
        i := i + 1;
      }
      assert filas[..i] == filas;
      OrdenarPorFechaOrdenado(filas);
    }

    /** SELECT * WHERE descripcion LIKE '%q%' OR categoria LIKE '%q%'
        ORDER BY fecha DESC: exactly the rows that match, each as often as
        the table holds it, latest date first. */
    method BuscarMovimientos(busqueda: string) returns (lista: seq<Movimiento>)
      ensures lista == OrdenarPorFecha(Coincidencias(filas, busqueda))
      ensures multiset(lista) == multiset(Coincidencias(filas, busqueda))
      ensures forall m :: m in lista <==> m in filas && Coincide(m, busqueda)
      ensures OrdenadoPorFechaDesc(lista)
    {
      lista := [];
      var i := 0;
      while i < |filas|
        invariant 0 <= i <= |filas|
        invariant lista == OrdenarPorFecha(Coincidencias(filas[..i], busqueda))
      {
        BusquedaPaso(filas, i, busqueda);
        if Coincide(filas[i], busqueda) {
          lista := InsertarPorFecha(lista, filas[i]);
        }
        i := i + 1;
      }
      assert filas[..i] == filas;
      var elegidas := Coincidencias(filas, busqueda);
      OrdenarPorFechaOrdenado(elegidas);
      CoincidenciasMiembros(filas, busqueda);
      forall m ensures m in lista <==> m in elegidas {
        assert m in lista <==> m in multiset(lista);
        assert m in elegidas <==> m in multiset(elegidas);
      }
    }

    /** SELECT tipo, SUM(monto) ... WHERE fecha = ? GROUP BY tipo, then the
        loop over the groups: the "Ingreso" group's total goes to
        totalIngresos, the total of any other group is ASSIGNED to
        totalGastos. SQL leaves the order of the groups open, so each turn
        takes any group not yet seen. */
    method ObtenerResumenPorFecha(fecha: string) returns (r: ResumenDiario)
      ensures r.saldo == r.totalIngresos - r.totalGastos
      ensures r.totalIngresos == SumaMonto(filas, fecha, Ingreso)
      ensures (forall t :: t in TiposDelDia(filas, fecha) ==> t == Ingreso) ==> r.totalGastos == 0.0
      ensures (exists t :: t in TiposDelDia(filas, fecha) && t != Ingreso) ==>
        exists t :: t in TiposDelDia(filas, fecha) && t != Ingreso && r.totalGastos == SumaMonto(filas, fecha, t)
      ensures SoloIngresoYGasto(filas) ==> r.totalGastos == SumaMonto(filas, fecha, Gasto)
      ensures (forall m :: m in filas ==> m.fecha != fecha) ==> r == ResumenDiario(0.0, 0.0, 0.0)
    {
      var totalIngresos, totalGastos := 0.0, 0.0;
      var grupos := TiposDelDia(filas, fecha);
      ghost var vistos: set<string> := {};
      while grupos != {}
        invariant grupos + vistos == TiposDelDia(filas, fecha) && grupos !! vistos
        invariant totalIngresos == if Ingreso in vistos then SumaMonto(filas, fecha, Ingreso) else 0.0
        invariant (forall t :: t in vistos ==> t == Ingreso) ==> totalGastos == 0.0
        invariant (exists t :: t in vistos && t != Ingreso) ==>
          exists t :: t in vistos && t != Ingreso && totalGastos == SumaMonto(filas, fecha, t)
        decreases grupos
      {
        var tipo :| tipo in grupos;
        var total := SumaMonto(filas, fecha, tipo);
        if tipo == Ingreso {
          totalIngresos := total;
        } else {
          totalGastos := total;
        }
        grupos := grupos - {tipo};
        vistos := vistos + {tipo};
      }
      if Ingreso !in vistos {
        SumaMontoAusente(filas, fecha, Ingreso);
      }
      if SoloIngresoYGasto(filas) {
        assert forall t :: t in vistos ==> t == Ingreso || t == Gasto;
        if Gasto !in vistos {
          SumaMontoAusente(filas, fecha, Gasto);
        }
      }
      r := ResumenDiario(totalIngresos, totalGastos, totalIngresos - totalGastos);
    }

    /** The day's listing of the summary screen: SELECT * WHERE fecha = ?
        ORDER BY id DESC. Walking the table from its last rowid backwards
        yields exactly the rows of that date, newest id first. */
    method ObtenerMovimientosPorFecha(fecha: string) returns (lista: seq<Movimiento>)
      requires Valid()
      ensures lista == DelDiaIdDesc(filas, fecha)
      ensures forall m :: m in lista <==> m in filas && m.fecha == fecha
      ensures forall i, j :: 0 <= i < j < |lista| ==> lista[i].id > lista[j].id
    {
      lista := [];
      var i := |filas|;
      while i > 0
        invariant 0 <= i <= |filas|
        invariant lista == DelDiaIdDesc(filas[i..], fecha)
      {
        i := i - 1;
        assert filas[i..][1..] == filas[i + 1..];
        if filas[i].fecha == fecha {
          lista := lista + [filas[i]];
        }
      }
      assert filas[0..] == filas;
      DelDiaIdDescDecreciente(filas, fecha);
    }
  }

  /** A day as the entry form and the summary screen use the store: one
      income and one expense are registered, then the day's summary and
      listing are read back. */
  method EscenarioDelDia()
  {
    var c := new ConexionSQLite();
    var ok1 := c.InsertarMovimiento(Ingreso, "Salario de marzo", "Salario", 1000.0, "2024-03-01", false);
    var ok2 := c.InsertarMovimiento(Gasto, "Almuerzo", "Comida", 15.5, "2024-03-01", false);
    assert ok1 && ok2;
    assert c.filas == [Movimiento(1, Ingreso, "Salario de marzo", "Salario", 1000.0, "2024-03-01"),
                       Movimiento(2, Gasto, "Almuerzo", "Comida", 15.5, "2024-03-01")];
    var ingreso, gasto := c.filas[0], c.filas[1];
    assert c.filas[1..] == [gasto] && c.filas[1..][1..] == [];
    assert SoloIngresoYGasto(c.filas);
    assert SumaMonto(c.filas[1..], "2024-03-01", Ingreso) == 0.0;
    assert SumaMonto(c.filas, "2024-03-01", Ingreso) == 1000.0;
    assert SumaMonto(c.filas[1..], "2024-03-01", Gasto) == 15.5;
    assert SumaMonto(c.filas, "2024-03-01", Gasto) == 15.5;
    var r := c.ObtenerResumenPorFecha("2024-03-01");
    assert r == ResumenDiario(1000.0, 15.5, 984.5);
    var otro := c.ObtenerResumenPorFecha("2024-03-02");
    assert otro == ResumenDiario(0.0, 0.0, 0.0);
    var dia := c.ObtenerMovimientosPorFecha("2024-03-01");
    assert ingreso in dia && gasto in dia;
    var borrado := c.EliminarMovimiento(7, false);
    assert borrado && |c.filas| == 2;
  }
}
