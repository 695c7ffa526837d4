# Ledger store of the personal finance tracker

This project models the data-access layer of an Android income and expense
tracker. That layer is the class `ConexionSQLite` with its two data classes,
`Movimiento` (one entry) and `ResumenDiario` (a day's totals). It keeps a
single SQLite table, `movimientos`. Each row holds a store-assigned
`AUTOINCREMENT` id, a kind (`tipo`, which the app writes as `"Ingreso"` or
`"Gasto"`), a description, a category, an amount (`monto`) and a date
(`fecha`, text `YYYY-MM-DD`).

The project has three files:

- `sqlite.dfy`, module `Sqlite`: the engine semantics the queries rely on.
  It defines the BINARY collation order that `ORDER BY fecha` uses and proves
  it is a strict total order. It also defines the `LIKE` operator, with the
  `%` and `_` wildcards and SQLite's ASCII-only case folding. It proves that
  `LIKE '%q%'` is a case-folded substring test whenever `q` contains no
  wildcard.
- `movimientos.dfy`, module `Movimientos`: the two data classes and the pure
  definitions the operations are specified by. These are the insertion by date
  that builds a descending list, the rows a search selects, the rows a delete
  keeps, the set of kinds on a day, and `SUM(monto)` for one kind on one day.
  The lemmas about them sit beside them.
- `conexion.dfy`, module `Conexion`: the class `ConexionSQLite`. Its field
  `filas` holds the table's rows in rowid order, and `siguienteId` is one more
  than the table's `sqlite_sequence` entry. The ghost field `emitidos` holds
  every id handed out since the table was created. `Valid()` says the following:
  - ids are strictly increasing along `filas`, so they are unique;
  - every stored id was handed out;
  - every id handed out lies below `siguienteId`.

  Insert, update, delete and the upgrade reset are methods that change this
  state. The full listing, the search and the date listing are methods that
  walk the table's rows in a loop, like the cursor loops of the source. The
  summary loops over the `GROUP BY` groups, one per kind on that day, as the
  source's cursor does, and takes each group's `SUM(monto)` from the pure
  definition. Each query is proved against the pure definitions.
  `EscenarioDelDia` is a client: it records an income and an expense on one
  day and reads back the day's summary (1000.0, 15.5, 984.5) and listing.

Amounts are `real`. Each storage error that the source catches and turns into
`false` is a `falla: bool` parameter of the write. A failed write leaves the
table unchanged.

The model follows the code where it departs from what the store is meant to do:

- The kinds are the Spanish strings `"Ingreso"` and `"Gasto"`.
- In the summary, a group's total is assigned to `totalGastos`, not added
  (`ConexionSQLite.kt:141`). So with two or more kinds other than `"Ingreso"`
  on one day, `totalGastos` is the total of just one of them, not their sum.
  `ObtenerResumenPorFecha` states exactly that. When the only kinds are
  `"Ingreso"` and `"Gasto"`, which are all the entry form writes, that total is
  the `"Gasto"` sum. `GastoEsTodoLoDemas` proves this is then also the sum
  over every kind other than `"Ingreso"`.
- Case-insensitive search covers only ASCII letters.
- A `%` or `_` in the search text acts as a wildcard. For example, searching
  for `"_"` finds every row (`GuionBajoEsComodin`).

## Model

| member | source | states |
|---|---|---|
| Sqlite.MenorIrreflexivo | ExamenParcialPrcticoCmputo2/app/src/main/java/com/wsorto/examenparcialprcticocmputo2/ConexionSQLite.kt:67 | no date sorts strictly before itself under the BINARY collation |
| Sqlite.MenorTransitivo | ExamenParcialPrcticoCmputo2/app/src/main/java/com/wsorto/examenparcialprcticocmputo2/ConexionSQLite.kt:67 | the collation order used by `ORDER BY fecha` is transitive |
| Sqlite.MenorTotal | ExamenParcialPrcticoCmputo2/app/src/main/java/com/wsorto/examenparcialprcticocmputo2/ConexionSQLite.kt:67 | any two dates are equal or one sorts strictly before the other, so "descending" is well defined |
| Sqlite.PlegarIgual | ExamenParcialPrcticoCmputo2/app/src/main/java/com/wsorto/examenparcialprcticocmputo2/ConexionSQLite.kt:155 | LIKE treats two characters as equal exactly when they are the same character or one is the upper-case ASCII letter of the other; no other pair (no non-ASCII letter) is identified |
| Sqlite.PlegarIdempotente | ExamenParcialPrcticoCmputo2/app/src/main/java/com/wsorto/examenparcialprcticocmputo2/ConexionSQLite.kt:155 | case folding is idempotent and never yields an upper-case ASCII letter |
| Sqlite.LikeTodo | ExamenParcialPrcticoCmputo2/app/src/main/java/com/wsorto/examenparcialprcticocmputo2/ConexionSQLite.kt:155-157 | the pattern `%` matches every text |
| Sqlite.LikeVacio | ExamenParcialPrcticoCmputo2/app/src/main/java/com/wsorto/examenparcialprcticocmputo2/ConexionSQLite.kt:157 | the pattern an empty search builds, `%%`, matches every text |
| Sqlite.LikePrefijo | ExamenParcialPrcticoCmputo2/app/src/main/java/com/wsorto/examenparcialprcticocmputo2/ConexionSQLite.kt:155-157 | for a wildcard-free `q`, `s LIKE 'q%'` holds exactly when `s` starts with `q` up to ASCII case |
| Sqlite.LikeContiene | ExamenParcialPrcticoCmputo2/app/src/main/java/com/wsorto/examenparcialprcticocmputo2/ConexionSQLite.kt:155-157 | for a wildcard-free `q`, `s LIKE '%q%'` holds exactly when `q` occurs in `s` up to ASCII case (both directions) |
| Sqlite.GuionBajoEsComodin | ExamenParcialPrcticoCmputo2/app/src/main/java/com/wsorto/examenparcialprcticocmputo2/ConexionSQLite.kt:157 | the search text is not escaped: `"_"` builds `%_%`, which matches every non-empty text |
| Movimientos.InsertarPorFecha | ExamenParcialPrcticoCmputo2/app/src/main/java/com/wsorto/examenparcialprcticocmputo2/ConexionSQLite.kt:67 | placing one row into a list by date adds exactly that row and loses none (multiset equation) |
| Movimientos.InsertarPorFechaOrdenado | ExamenParcialPrcticoCmputo2/app/src/main/java/com/wsorto/examenparcialprcticocmputo2/ConexionSQLite.kt:67 | placing a row into a list ordered by `fecha` descending keeps it ordered |
| Movimientos.OrdenarPorFechaOrdenado | ExamenParcialPrcticoCmputo2/app/src/main/java/com/wsorto/examenparcialprcticocmputo2/ConexionSQLite.kt:67 | the list built row by row from the cursor is ordered by `fecha` descending and is a permutation of its input |
| Movimientos.CoincidenciasMiembros | ExamenParcialPrcticoCmputo2/app/src/main/java/com/wsorto/examenparcialprcticocmputo2/ConexionSQLite.kt:154-157 | a search selects a row exactly when the table holds it and its description or category is LIKE `%q%` |
| Movimientos.CoincideEsSubcadena | ExamenParcialPrcticoCmputo2/app/src/main/java/com/wsorto/examenparcialprcticocmputo2/ConexionSQLite.kt:155-157 | for a wildcard-free search text, a row matches exactly when its description or category contains the text up to ASCII case |
| Movimientos.BusquedaIgnoraMayusculas | ExamenParcialPrcticoCmputo2/app/src/main/java/com/wsorto/examenparcialprcticocmputo2/ConexionSQLite.kt:155-157 | searching `"bus"` finds the description `"Bus ticket"` |
| Movimientos.BusquedaIgnoraMayusculasCategoria | ExamenParcialPrcticoCmputo2/app/src/main/java/com/wsorto/examenparcialprcticocmputo2/ConexionSQLite.kt:155-157 | searching `"TRANSPORTE"` finds the category `"Transporte"` |
| Movimientos.CoincidenciasVacia | ExamenParcialPrcticoCmputo2/app/src/main/java/com/wsorto/examenparcialprcticocmputo2/ConexionSQLite.kt:152-157 | the empty search text selects every row of the table, so a search for `""` returns the same rows as the full listing |
| Movimientos.SinIdMiembros | ExamenParcialPrcticoCmputo2/app/src/main/java/com/wsorto/examenparcialprcticocmputo2/ConexionSQLite.kt:114 | after `DELETE ... WHERE id = ?` a row remains exactly when it was there and carries another id |
| Movimientos.SinIdCrecientes | ExamenParcialPrcticoCmputo2/app/src/main/java/com/wsorto/examenparcialprcticocmputo2/ConexionSQLite.kt:114 | the rows a delete leaves keep their rowid order, so ids stay unique |
| Movimientos.SinIdAusente | ExamenParcialPrcticoCmputo2/app/src/main/java/com/wsorto/examenparcialprcticocmputo2/ConexionSQLite.kt:112-119 | deleting an id no row carries leaves the table unchanged |
| Movimientos.SinIdCuenta | ExamenParcialPrcticoCmputo2/app/src/main/java/com/wsorto/examenparcialprcticocmputo2/ConexionSQLite.kt:112-119 | with unique ids, the row count drops by one exactly when the id was present and stays put otherwise |
| Movimientos.SumaMontoAusente | ExamenParcialPrcticoCmputo2/app/src/main/java/com/wsorto/examenparcialprcticocmputo2/ConexionSQLite.kt:124-128 | a kind with no row on a date has total 0 there, matching the totals' initial 0.0 |
| Movimientos.GastoEsTodoLoDemas | ExamenParcialPrcticoCmputo2/app/src/main/java/com/wsorto/examenparcialprcticocmputo2/ConexionSQLite.kt:138-142 | when every kind is "Ingreso" or "Gasto", the "Gasto" total equals the sum over every row that is not "Ingreso" |
| Movimientos.SumaMontoNoNegativa | ExamenParcialPrcticoCmputo2/app/src/main/java/com/wsorto/examenparcialprcticocmputo2/RegistrarActivity.kt:202-207 | with the positive amounts the entry form admits, no per-kind total is negative |
| Conexion.ConexionSQLite.constructor | ExamenParcialPrcticoCmputo2/app/src/main/java/com/wsorto/examenparcialprcticocmputo2/ConexionSQLite.kt:24-36 | a created table is empty, its first id will be 1, and the invariant holds |
| Conexion.ConexionSQLite.OnUpgrade | ExamenParcialPrcticoCmputo2/app/src/main/java/com/wsorto/examenparcialprcticocmputo2/ConexionSQLite.kt:38-41 | drop and recreate: every row is gone and ids start over from 1 |
| Conexion.ConexionSQLite.InsertarMovimiento | ExamenParcialPrcticoCmputo2/app/src/main/java/com/wsorto/examenparcialprcticocmputo2/ConexionSQLite.kt:44-63 | on success, exactly one row is appended with the given five fields and an id never handed out before and above every stored id; other rows are untouched; true unless a storage error or the rowid limit, and a failure changes nothing |
| Conexion.ConexionSQLite.ActualizarMovimiento | ExamenParcialPrcticoCmputo2/app/src/main/java/com/wsorto/examenparcialprcticocmputo2/ConexionSQLite.kt:88-109 | the row with the id gets all five new fields and keeps its id, every other row is unchanged, an absent id leaves the table unchanged, and the result is true unless a storage error |
| Conexion.ConexionSQLite.EliminarMovimiento | ExamenParcialPrcticoCmputo2/app/src/main/java/com/wsorto/examenparcialprcticocmputo2/ConexionSQLite.kt:112-120 | no row with the id remains, nothing else is removed, the count drops by one exactly when the id was present, an absent id changes nothing, and the result is true unless a storage error |
| Conexion.ConexionSQLite.ObtenerTodosMovimientos | ExamenParcialPrcticoCmputo2/app/src/main/java/com/wsorto/examenparcialprcticocmputo2/ConexionSQLite.kt:66-85 | the list is the cursor's rows placed by date: a permutation of the table with non-increasing dates |
| Conexion.ConexionSQLite.BuscarMovimientos | ExamenParcialPrcticoCmputo2/app/src/main/java/com/wsorto/examenparcialprcticocmputo2/ConexionSQLite.kt:152-176 | the list holds exactly the matching rows, each as often as the table does, ordered by date descending |
| Conexion.ConexionSQLite.ObtenerResumenPorFecha | ExamenParcialPrcticoCmputo2/app/src/main/java/com/wsorto/examenparcialprcticocmputo2/ConexionSQLite.kt:123-149 | saldo = ingresos - gastos; ingresos is the "Ingreso" sum of the day; gastos is 0 with no other kind, else the sum of one non-"Ingreso" kind present (the last group assigned); with only "Ingreso"/"Gasto" it is the "Gasto" sum; a day without rows gives (0, 0, 0) |
| Movimientos.DelDiaIdDesc | ExamenParcialPrcticoCmputo2/app/src/main/java/com/wsorto/examenparcialprcticocmputo2/ResumenActivity.kt:125 | the rows of the date listing are exactly the table's rows with that date |
| Movimientos.DelDiaIdDescDecreciente | ExamenParcialPrcticoCmputo2/app/src/main/java/com/wsorto/examenparcialprcticocmputo2/ResumenActivity.kt:125 | read off a table in rowid order, the date listing has strictly decreasing ids (`ORDER BY id DESC`) |
| Conexion.ConexionSQLite.ObtenerMovimientosPorFecha | ExamenParcialPrcticoCmputo2/app/src/main/java/com/wsorto/examenparcialprcticocmputo2/ResumenActivity.kt:122-146 | the list holds exactly the rows with that date, ids strictly decreasing |

## Left out

- Floating point: `monto` and the totals are `real`. The store's `REAL`/`Double` rounding and the `"$%.2f"` display are not modelled.
- Id width: ids are unbounded integers, limited only by SQLite's 64-bit rowid limit on insert. Reading an id above 2^31 - 1 back through `getInt` into a Kotlin `Int` would truncate it, and that is not modelled.
- Storage errors are a `falla` parameter of each write. The exception's cause is not kept, because the source drops it. Errors raised by the queries are not modelled either; the source does not catch them.
- The SQLite engine itself (connections, cursors, `execSQL`, `rawQuery`, `use`) is replaced by the `filas` sequence. The `SQLiteOpenHelper` lifecycle becomes the constructor (`onCreate`) and `OnUpgrade`. The version numbers passed to `onUpgrade` play no part.
- ConexionSQLite.ObtenerTodosMovimientos: SQL leaves the order of rows with equal `fecha` open, but the model picks one. Its contract `lista == OrdenarPorFecha(filas)` keeps rows with equal `fecha` in table (rowid) order, which SQLite does not promise; only the permutation and the descending dates are guaranteed by the source.
- ConexionSQLite.BuscarMovimientos: the same holds for the search; `lista == OrdenarPorFecha(Coincidencias(filas, busqueda))` fixes table order among equal dates, which SQLite does not promise.
- ConexionSQLite.ObtenerResumenPorFecha: SQL leaves the order of the `GROUP BY` groups open. The loop takes any unseen group on each turn, and the contract names no particular group when several non-"Ingreso" kinds share a day.
- Activities, the adapter, coroutines and `Dispatchers` switching are left out. So are date pickers, the category spinners and the caller-side validation in `RegistrarActivity.kt`. The one exception is the positive-amount hypothesis of `SumaMontoNoNegativa`.
- No transaction links the summary and the day's listing, which are two separate reads. With a single-threaded model, no write can fall between them, so that gap is not represented.
