/**
 * What `init_db` does with the data of the single-property version of the
 * application (app.py:182-274): the old configuration becomes the first
 * property and its configuration, and each old ledger row is inserted for that
 * property with `INSERT OR IGNORE`. The rows are a parameter: the functions
 * here say what the loop does with the rows it is given.
 */
module Legacy {
  import opened Wrappers
  import opened Text
  import opened Records
  import opened Ledger

  /** A row of the old ledger table; a column that is missing or NULL is `None`. */
  datatype LegacyRow = LegacyRow(
    mes: Option<string>,
    aluguel: Option<nat>, condominio: Option<nat>, iptu: Option<nat>,
    consumoAgua: Option<nat>, taxaAdmin: Option<nat>,
    seguroIncendio: Option<nat>, outrasTaxas: Option<nat>,
    outrosDescontos: Option<nat>, desconto: Option<nat>)

  /** Python's `a or b` for an amount: `a` unless it is missing or zero. */
  function Or(a: Option<nat>, b: nat): nat
  {
    if a.Some? && a.value != 0 then a.value else b
  }

  /** The ledger entry an old row becomes: notes are empty, water and discount fall back to the old columns. */
  function FromLegacy(r: LegacyRow): (l: Lancamento)
    requires r.mes.Some?
  {
    Lancamento(
      r.mes.value,
      Amounts(
        Or(r.aluguel, 0), Or(r.condominio, 0), Or(r.iptu, 0),
        Or(r.consumoAgua, Or(r.taxaAdmin, 0)),
        Or(r.seguroIncendio, 0), Or(r.outrasTaxas, 0),
        Or(r.outrosDescontos, Or(r.desconto, 0))),
      NoNotes)
  }

  /**
   * The water amount is `consumo_agua`, or else `taxa_admin`, or else 0; the
   * discount is `outros_descontos`, or else `desconto`, or else 0; the other
   * amounts are copied with a missing one read as 0, and no note is carried over.
   */
  lemma FromLegacyFallbacks(r: LegacyRow)
    requires r.mes.Some?
    ensures var v := FromLegacy(r).valores;
      FromLegacy(r).mes == r.mes.value && FromLegacy(r).obs == NoNotes
      && v.aluguel == r.aluguel.GetOr(0) && v.condominio == r.condominio.GetOr(0) && v.iptu == r.iptu.GetOr(0)
      && v.seguroIncendio == r.seguroIncendio.GetOr(0) && v.outrasTaxas == r.outrasTaxas.GetOr(0)
      && (r.consumoAgua.GetOr(0) != 0 ==> v.consumoAgua == r.consumoAgua.value)
      && (r.consumoAgua.GetOr(0) == 0 ==> v.consumoAgua == r.taxaAdmin.GetOr(0))
      && (r.outrosDescontos.GetOr(0) != 0 ==> v.outrosDescontos == r.outrosDescontos.value)
      && (r.outrosDescontos.GetOr(0) == 0 ==> v.outrosDescontos == r.desconto.GetOr(0))
      && (v.consumoAgua == 0 <==> r.consumoAgua.GetOr(0) == 0 && r.taxaAdmin.GetOr(0) == 0)
  {
  }

  /**
   * `INSERT OR IGNORE` of one old row for property `apt`: a row whose key is
   * already taken is dropped, and so is a row with a NULL month (the NOT NULL
   * constraint fails and the row is ignored).
   */
  function InsertOrIgnore(m: Table, apt: int, r: LegacyRow, now: nat): Table
  {
    if r.mes.None? || (apt, r.mes.value) in m then m
    else m[(apt, r.mes.value) := Row(FromLegacy(r), now, now)]
  }

  /** The table after the `for r in rows` loop, one `INSERT OR IGNORE` per row in order. */
  function Migrated(m: Table, apt: int, rows: seq<LegacyRow>, now: nat): Table
  {
    if rows == [] then m
    else InsertOrIgnore(Migrated(m, apt, rows[..|rows| - 1], now), apt, rows[|rows| - 1], now)
  }

  /** The keys the old rows ask for: property `apt`, each non-NULL month. */
  function LegacyKeys(apt: int, rows: seq<LegacyRow>): set<Key>
  {
    set i | 0 <= i < |rows| && rows[i].mes.Some? :: (apt, rows[i].mes.value)
  }

  /** After migration the table holds the old keys plus one row per month of the old rows, nothing else. */
  lemma {:induction false} MigratedKeys(m: Table, apt: int, rows: seq<LegacyRow>, now: nat)
    ensures Migrated(m, apt, rows, now).Keys == m.Keys + LegacyKeys(apt, rows)
  {
    if rows != [] {
      var init := rows[..|rows| - 1];
      MigratedKeys(m, apt, init, now);
      var last := rows[|rows| - 1];
      forall k ensures k in LegacyKeys(apt, rows) <==> k in LegacyKeys(apt, init) || (last.mes.Some? && k == (apt, last.mes.value)) {
        if k in LegacyKeys(apt, rows) {
          var i :| 0 <= i < |rows| && rows[i].mes.Some? && k == (apt, rows[i].mes.value);
          if i < |rows| - 1 { assert init[i] == rows[i]; }
        }
        if k in LegacyKeys(apt, init) {
          var i :| 0 <= i < |init| && init[i].mes.Some? && k == (apt, init[i].mes.value);
          assert rows[i] == init[i];
        }
      }
    }
  }

  /** Rows that were there before migration are left exactly as they were. */
  lemma {:induction false} MigratedKeepsExisting(m: Table, apt: int, rows: seq<LegacyRow>, now: nat, k: Key)
    requires k in m
    ensures k in Migrated(m, apt, rows, now) && Migrated(m, apt, rows, now)[k] == m[k]
  {
    if rows != [] {
      MigratedKeepsExisting(m, apt, rows[..|rows| - 1], now, k);
    }
  }

  /**
   * The first old row with a month wins: when the key was free, the row stored
   * under it is the first old row of that month, with both timestamps `now`.
   */
  lemma {:induction false} MigratedFirstWins(m: Table, apt: int, rows: seq<LegacyRow>, now: nat, j: nat)
    requires j < |rows| && rows[j].mes.Some? && (apt, rows[j].mes.value) !in m
    requires forall i :: 0 <= i < j ==> rows[i].mes != rows[j].mes
    ensures var k := (apt, rows[j].mes.value);
      k in Migrated(m, apt, rows, now) && Migrated(m, apt, rows, now)[k] == Row(FromLegacy(rows[j]), now, now)
  {
    var k := (apt, rows[j].mes.value);
    var init := rows[..|rows| - 1];
    if j == |rows| - 1 {
      MigratedKeys(m, apt, init, now);
    } else {
      forall i | 0 <= i < j ensures init[i].mes != init[j].mes {
        assert init[i] == rows[i];
      }
      MigratedFirstWins(m, apt, init, now, j);
      assert init[j] == rows[j];
    }
  }

  /** Running the migration a second time changes nothing. */
  lemma {:induction false} MigratedIdempotent(m: Table, apt: int, rows: seq<LegacyRow>, now: nat, later: nat)
    ensures Migrated(Migrated(m, apt, rows, now), apt, rows, later) == Migrated(m, apt, rows, now)
  {
    var once := Migrated(m, apt, rows, now);
    MigratedKeys(m, apt, rows, now);
    MigratedKeys(once, apt, rows, later);
    var twice := Migrated(once, apt, rows, later);
    forall k | k in once ensures twice[k] == once[k] {
      MigratedKeepsExisting(once, apt, rows, later, k);
    }
  }

  /** Other properties' rows are neither added nor changed. */
  lemma MigratedOtherProperties(m: Table, apt: int, rows: seq<LegacyRow>, now: nat, k: Key)
    requires k.0 != apt
    ensures k in Migrated(m, apt, rows, now) <==> k in m
    ensures k in m ==> Migrated(m, apt, rows, now)[k] == m[k]
  {
    MigratedKeys(m, apt, rows, now);
    if k in m { MigratedKeepsExisting(m, apt, rows, now, k); }
  }

  /**
   * The old `config` row (id 1): the address lines, the twelve text columns
   * (those missing from it read as "") and the due day.
   */
  datatype LegacyConfig = LegacyConfig(
    imovel: Option<string>, bairro: Option<string>,
    texts: map<ConfigField, string>, vencimentoDia: Option<int>)

  const DefaultApelido: string := "Abraham Palatnik 100/301/7"
  const DefaultImovel: string := "Rua Abraham Palatnik, 100 " + "\U{2013} Apto 301 \U{2013} Bloco 7"
  const DefaultBairro: string := "Recreio dos Bandeirantes " + "\U{2013} Rio de Janeiro/RJ"
  const MigratedApelido: string := "Im\U{f3}vel 1"

  /** Python's `a or b` for a text column: `a` unless it is missing or empty. */
  function OrText(a: Option<string>, b: string): string
  {
    if a.Some? && a.value != "" then a.value else b
  }

  /** The property created when there is nothing to migrate. */
  function DefaultApartamento(id: int): Apartamento
  {
    Apartamento(id, DefaultApelido, DefaultImovel, DefaultBairro)
  }

  /** The property created from the old configuration. */
  function MigratedApartamento(id: int, c: LegacyConfig): Apartamento
  {
    Apartamento(id, MigratedApelido, Trim(OrText(c.imovel, DefaultImovel)), Trim(OrText(c.bairro, DefaultBairro)))
  }

  /** The old configuration's columns are copied; a due day that is missing or 0 becomes 5. */
  function MigratedConfig(c: LegacyConfig): (r: Config)
    ensures forall f: ConfigField :: r.Get(f) == (if f in c.texts then c.texts[f] else "")
    ensures r.vencimentoDia == StoredDueDay(c.vencimentoDia) && r.vencimentoDia != 0
  {
    ConfigFrom(c.texts, c.vencimentoDia)
  }
}
