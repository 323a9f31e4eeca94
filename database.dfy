/**
 * The SQLite database of the application as one object holding its three
 * tables (app.py:112-173): `apartamentos` in id order with its AUTOINCREMENT
 * counter, `configs` keyed by property id, and `lancamentos` keyed by
 * `(apartamento_id, mes)`. `datetime('now')` is an abstract clock; only the
 * ledger writes, which store it in `created_at` and `updated_at`, move it
 * forward, once per call. Each method is one store function.
 */
module Store {
  import opened Wrappers
  import opened Text
  import opened Records
  import opened Ledger
  import opened Legacy
  import opened Prefill
  import opened Statement

  /**
   * Ids are below the counter and strictly increasing (the `ORDER BY id` order
   * is the insertion order), and every property has its configuration.
   */
  predicate PropertiesValid(apartamentos: seq<Apartamento>, nextId: int, configs: map<int, Config>)
  {
    nextId >= 1
    && (forall i :: 0 <= i < |apartamentos| ==> 1 <= apartamentos[i].id < nextId && apartamentos[i].id in configs)
    && (forall i, j :: 0 <= i < j < |apartamentos| ==> apartamentos[i].id < apartamentos[j].id)
  }

  /** No stored due day is 0. */
  predicate ConfigsValid(configs: map<int, Config>)
  {
    forall id :: id in configs ==> configs[id].vencimentoDia != 0
  }

  /** Every ledger row is filed under its own month, with timestamps no later than the clock. */
  predicate LedgerValid(lancamentos: Table, clock: nat)
  {
    forall k :: k in lancamentos ==>
      lancamentos[k].lanc.mes == k.1 && lancamentos[k].createdAt <= lancamentos[k].updatedAt <= clock
  }

  /** Appending a property with the counter's id and giving it a configuration keeps the property table valid. */
  lemma AppendProperty(apartamentos: seq<Apartamento>, nextId: int, configs: map<int, Config>, a: Apartamento, c: Config)
    requires PropertiesValid(apartamentos, nextId, configs) && a.id == nextId
    ensures PropertiesValid(apartamentos + [a], nextId + 1, configs[nextId := c])
  {
    var s := apartamentos + [a];
    forall i, j | 0 <= i < j < |s| ensures s[i].id < s[j].id {
      if j == |s| - 1 { assert s[i] == apartamentos[i]; }
    }
  }

  /** The row `create_apartamento` and `update_apartamento` write: the three fields with `strip()` applied. */
  function Stripped(id: int, apelido: string, imovel: string, bairro: string): Apartamento
  {
    Apartamento(id, Trim(apelido), Trim(imovel), Trim(bairro))
  }

  /**
   * The property table after `UPDATE apartamentos SET ... WHERE id=?`: the row
   * with `a`'s id becomes `a`. Every id stays where it was, the new row is there
   * whenever its id was, every row of another property is kept, and an unknown
   * id matches no row.
   */
  function Renamed(s: seq<Apartamento>, a: Apartamento): (r: seq<Apartamento>)
    ensures |r| == |s|
    ensures forall i :: 0 <= i < |s| ==> r[i].id == s[i].id
    ensures (forall i :: 0 <= i < |s| ==> s[i].id != a.id) ==> r == s
    ensures (exists i :: 0 <= i < |s| && s[i].id == a.id) ==> a in r
    ensures forall b :: b in s && b.id != a.id ==> b in r
  {
    seq(|s|, i requires 0 <= i < |s| => if s[i].id == a.id then a else s[i])
  }

  function IdsOf(s: seq<Apartamento>): set<int>
  {
    set i | 0 <= i < |s| :: s[i].id
  }

  /** Renaming keeps every id where it was, so the property table stays valid; an unknown id changes nothing. */
  lemma RenamedValid(s: seq<Apartamento>, nextId: int, configs: map<int, Config>, a: Apartamento)
    requires PropertiesValid(s, nextId, configs)
    ensures PropertiesValid(Renamed(s, a), nextId, configs)
    ensures IdsOf(Renamed(s, a)) == IdsOf(s)
    ensures a.id !in IdsOf(s) ==> Renamed(s, a) == s
  {
    var r := Renamed(s, a);
    assert forall i :: 0 <= i < |s| ==> r[i].id == s[i].id;
    forall x ensures x in IdsOf(r) <==> x in IdsOf(s) {
      if x in IdsOf(r) {
        var i :| 0 <= i < |r| && r[i].id == x;
        assert s[i].id == x;
      }
      if x in IdsOf(s) {
        var i :| 0 <= i < |s| && s[i].id == x;
        assert r[i].id == x;
      }
    }
    if a.id !in IdsOf(s) {
      assert forall i :: 0 <= i < |s| ==> s[i].id != a.id;
    }
  }

  class Database {
    var apartamentos: seq<Apartamento>
    /** The id the next inserted property gets: one more than any id ever handed out. */
    var nextId: int
    var configs: map<int, Config>
    var lancamentos: Table
    var clock: nat

    predicate Valid()
      reads this
    {
      PropertiesValid(apartamentos, nextId, configs) && ConfigsValid(configs) && LedgerValid(lancamentos, clock)
    }

    /** The ids of the stored properties. */
    function Ids(): set<int>
      reads this
    {
      IdsOf(apartamentos)
    }

    /** A database whose tables have just been created. */
    constructor()
      ensures Valid()
      ensures apartamentos == [] && nextId == 1 && configs == map[] && lancamentos == map[] && clock == 0
    {
      apartamentos := [];
      nextId := 1;
      configs := map[];
      lancamentos := map[];
      clock := 0;
    }

    /** `list_apartamentos`: every property, by increasing id. */
    method ListApartamentos() returns (r: seq<Apartamento>)
      requires Valid()
      ensures r == apartamentos
      ensures forall i, j :: 0 <= i < j < |r| ==> r[i].id < r[j].id
      ensures forall i :: 0 <= i < |r| ==> r[i].id in configs
    {
      r := apartamentos;
    }

    /** The two inserts of a new property: the row `a` under the counter's id and its configuration `c`. */
    method Insert(a: Apartamento, c: Config)
      requires Valid() && a.id == nextId && nextId !in configs && c.vencimentoDia != 0
      modifies this
      ensures Valid()
      ensures a.id !in old(Ids())
      ensures apartamentos == old(apartamentos) + [a] && configs == old(configs)[a.id := c]
      ensures nextId == old(nextId) + 1
      ensures lancamentos == old(lancamentos) && clock == old(clock)
    {
      AppendProperty(apartamentos, nextId, configs, a, c);
      apartamentos := apartamentos + [a];
      configs := configs[nextId := c];
      nextId := nextId + 1;
    }

    /**
     * `create_apartamento`: a property with a fresh id and the stripped fields,
     * and a configuration with due day 5. When a configuration row already sits
     * under that id (`load_config` accepts any id), the second insert breaks the
     * `configs` primary key and the whole call is rolled back.
     */
    method CreateApartamento(apelido: string, imovel: string, bairro: string) returns (id: Option<int>)
      requires Valid()
      modifies this
      ensures Valid()
      ensures old(nextId) in old(configs) ==> id == None && unchanged(this)
      ensures old(nextId) !in old(configs) ==>
        id == Some(old(nextId)) && id.value !in old(Ids())
        && apartamentos == old(apartamentos) + [Stripped(id.value, apelido, imovel, bairro)]
        && configs == old(configs)[id.value := DefaultConfig]
        && configs[id.value].vencimentoDia == 5
        && nextId == old(nextId) + 1
        && lancamentos == old(lancamentos) && clock == old(clock)
    {
      if nextId in configs {
        return None;
      }
      id := Some(nextId);
      Insert(Stripped(nextId, apelido, imovel, bairro), DefaultConfig);
    }

    /** `UPDATE apartamentos SET ... WHERE id=?` with the row `a`: the row with `a`'s id becomes `a`; no such row, no change. */
    method Rename(a: Apartamento)
      requires Valid()
      modifies this
      ensures Valid()
      ensures apartamentos == Renamed(old(apartamentos), a)
      ensures a.id !in old(Ids()) ==> apartamentos == old(apartamentos)
      ensures Ids() == old(Ids())
      ensures nextId == old(nextId) && configs == old(configs)
      ensures lancamentos == old(lancamentos) && clock == old(clock)
    {
      RenamedValid(apartamentos, nextId, configs, a);
      apartamentos := Renamed(apartamentos, a);
    }

    /** `update_apartamento`: the row with this id gets the three stripped fields; no such row, no change. */
    method UpdateApartamento(id: int, apelido: string, imovel: string, bairro: string)
      requires Valid()
      modifies this
      ensures Valid()
      ensures apartamentos == Renamed(old(apartamentos), Stripped(id, apelido, imovel, bairro))
      ensures id !in old(Ids()) ==> apartamentos == old(apartamentos)
      ensures Ids() == old(Ids())
      ensures nextId == old(nextId) && configs == old(configs)
      ensures lancamentos == old(lancamentos) && clock == old(clock)
    {
      Rename(Stripped(id, apelido, imovel, bairro));
    }

    /**
     * `load_config`: the property's configuration; one that is missing is first
     * created with due day 5, so some row always comes back.
     */
    method LoadConfig(id: int) returns (c: Config)
      requires Valid()
      modifies this
      ensures Valid()
      ensures id in old(configs) ==> c == old(configs)[id] && configs == old(configs)
      ensures id !in old(configs) ==> c == DefaultConfig && configs == old(configs)[id := DefaultConfig]
      ensures id in configs && configs[id] == c && c.vencimentoDia != 0
      ensures apartamentos == old(apartamentos) && nextId == old(nextId)
      ensures lancamentos == old(lancamentos) && clock == old(clock)
    {
      if id !in configs {
        configs := configs[id := DefaultConfig];
      }
      c := configs[id];
    }

    /**
     * `save_config`: every column is overwritten from the dictionary, the due
     * day with 5 when it is missing or 0; with no row for the id the UPDATE
     * matches nothing.
     */
    method SaveConfig(id: int, cfg: ConfigInput)
      requires Valid()
      modifies this
      ensures Valid()
      ensures configs == if id in old(configs) then old(configs)[id := ConfigFrom(cfg.texts, cfg.vencimentoDia)] else old(configs)
      ensures id in configs ==> configs[id].vencimentoDia == StoredDueDay(cfg.vencimentoDia)
      ensures apartamentos == old(apartamentos) && nextId == old(nextId)
      ensures lancamentos == old(lancamentos) && clock == old(clock)
    {
      if id in configs {
        configs := configs[id := ConfigFrom(cfg.texts, cfg.vencimentoDia)];
      }
    }

    /** `get_lancamento`: the entry of exactly this property and month, if stored. */
    function GetLancamento(apt: int, mes: string): (r: Option<Lancamento>)
      reads this
      requires Valid()
      ensures r.Some? <==> (apt, mes) in lancamentos
      ensures r.Some? ==> r.value == lancamentos[(apt, mes)].lanc && r.value.mes == mes
    {
      Lookup(lancamentos, apt, mes)
    }

    /** `get_latest_lancamento`: the entry with the greatest month of the property (`ORDER BY mes DESC LIMIT 1`). */
    method GetLatestLancamento(apt: int) returns (r: Option<Lancamento>)
      requires Valid()
      ensures r.None? <==> Meses(lancamentos, apt) == {}
      ensures r.Some? ==>
        IsLatest(lancamentos, apt, r.value.mes) && r.value == lancamentos[(apt, r.value.mes)].lanc
    {
      InMeses(lancamentos, apt);
      var all := Meses(lancamentos, apt);
      var todo := all;
      var best: Option<string> := None;
      while todo != {}
        invariant todo <= all
        invariant best.None? <==> todo == all
        invariant best.Some? ==> best.value in all && best.value !in todo
        invariant best.Some? ==> forall y :: y in all && y !in todo ==> y == best.value || LexLess(y, best.value)
        decreases |todo|
      {
        var x :| x in todo;
        if best.None? || LexLess(best.value, x) {
          if best.Some? {
            forall y | y in all && y !in todo && y != best.value ensures LexLess(y, x) {
              LexTransitive(y, best.value, x);
            }
          }
          best := Some(x);
        } else {
          LexTotal(best.value, x);
        }
        todo := todo - {x};
      }
      if best.None? {
        r := None;
      } else {
        r := Some(lancamentos[(apt, best.value)].lanc);
      }
    }

    /**
     * `upsert_lancamento`: the entry built from the dictionary is written whole
     * under `(apt, mes)`; reading it back gives exactly that, and every other
     * key reads as before.
     */
    method UpsertLancamento(apt: int, mes: string, data: Payload)
      requires Valid()
      modifies this
      ensures Valid()
      ensures clock == old(clock) + 1
      ensures lancamentos == Upserted(old(lancamentos), apt, mes, FromPayload(mes, data), clock)
      ensures GetLancamento(apt, mes) == Some(FromPayload(mes, data))
      ensures forall a, x :: (a, x) != (apt, mes) ==> Lookup(lancamentos, a, x) == Lookup(old(lancamentos), a, x)
      ensures apartamentos == old(apartamentos) && nextId == old(nextId) && configs == old(configs)
    {
      clock := clock + 1;
      lancamentos := Upserted(lancamentos, apt, mes, FromPayload(mes, data), clock);
    }

    /** `SELECT mes ... ORDER BY mes DESC`: the property's months, each once, greatest first. */
    method MesesDesc(apt: int) returns (ms: seq<string>)
      requires Valid()
      ensures Descending(ms)
      ensures forall x :: x in ms <==> x in Meses(lancamentos, apt)
      ensures |ms| == |Meses(lancamentos, apt)|
    {
      var all := Meses(lancamentos, apt);
      var todo := all;
      ms := [];
      while todo != {}
        invariant todo <= all
        invariant Descending(ms)
        invariant forall x :: x in ms <==> x in all && x !in todo
        invariant |ms| + |todo| == |all|
        decreases |todo|
      {
        var x :| x in todo;
        InsertDescSorted(ms, x);
        var ms' := InsertDesc(ms, x);
        assert forall y :: y in ms' <==> y in multiset(ms');
        ms := ms';
        todo := todo - {x};
      }
    }

    /**
     * `list_lancamentos`: one summary per stored month of the property, no
     * other, ordered by month descending.
     */
    method ListLancamentos(apt: int) returns (r: seq<Resumo>)
      requires Valid()
      ensures forall i :: 0 <= i < |r| ==>
        (apt, r[i].mes) in lancamentos && r[i] == Summary(lancamentos[(apt, r[i].mes)].lanc)
      ensures forall x :: x in Meses(lancamentos, apt) <==> exists i :: 0 <= i < |r| && r[i].mes == x
      ensures forall i, j :: 0 <= i < j < |r| ==> LexLess(r[j].mes, r[i].mes)
      ensures |r| == |Meses(lancamentos, apt)|
      ensures r != [] ==> IsLatest(lancamentos, apt, r[0].mes)
    {
      InMeses(lancamentos, apt);
      var ms := MesesDesc(apt);
      var m := lancamentos;
      r := seq(|ms|, i requires 0 <= i < |ms| => Summary(m[(apt, ms[i])].lanc));
      forall x | x in Meses(lancamentos, apt) ensures exists i :: 0 <= i < |r| && r[i].mes == x {
        var i :| 0 <= i < |ms| && ms[i] == x;
        assert r[i].mes == x;
      }
      if r != [] {
        HeadIsLatest(lancamentos, apt, ms);
      }
    }

    /**
     * The `for r in rows` loop of `init_db`: each old row is put under property
     * `apt` with `INSERT OR IGNORE`. The rows are given; on an old database the
     * statement of app.py:258-263 names columns the old `lancamentos` table
     * lacks, so when that table holds at least one row this is the loop as
     * written, not something the program completes there.
     */
    method MigrateLancamentos(apt: int, rows: seq<LegacyRow>)
      requires Valid()
      modifies this
      ensures Valid()
      ensures clock == old(clock) + 1
      ensures lancamentos == Migrated(old(lancamentos), apt, rows, clock)
      ensures apartamentos == old(apartamentos) && nextId == old(nextId) && configs == old(configs)
    {
      clock := clock + 1;
      for i := 0 to |rows|
        invariant Valid() && clock == old(clock) + 1
        invariant lancamentos == Migrated(old(lancamentos), apt, rows[..i], clock)
        invariant apartamentos == old(apartamentos) && nextId == old(nextId) && configs == old(configs)
      {
        assert rows[..i + 1][..i] == rows[..i];
        var r := rows[i];
        if r.mes.Some? && (apt, r.mes.value) !in lancamentos {
          lancamentos := lancamentos[(apt, r.mes.value) := Row(FromLegacy(r), clock, clock)];
        }
      }
      assert rows[..|rows|] == rows;
    }

    /**
     * `init_db` on an existing database: when no property exists yet, the
     * first one is created, from the old configuration if there is one and
     * from the built-in defaults otherwise, and the old ledger rows are
     * migrated to it. With properties already present nothing happens.
     */
    method InitDb(legacyConfig: Option<LegacyConfig>, legacyRows: seq<LegacyRow>) returns (ok: bool)
      requires Valid()
      modifies this
      ensures Valid()
      ensures old(apartamentos) != [] ==> ok && unchanged(this)
      ensures old(apartamentos) == [] && old(nextId) in old(configs) ==> !ok && unchanged(this)
      ensures old(apartamentos) == [] && old(nextId) !in old(configs) ==>
        ok
        && apartamentos == [if legacyConfig.Some? then MigratedApartamento(old(nextId), legacyConfig.value)
                            else DefaultApartamento(old(nextId))]
        && configs == old(configs)[old(nextId) := if legacyConfig.Some? then MigratedConfig(legacyConfig.value)
                                                  else DefaultConfig]
        && nextId == old(nextId) + 1
        && clock == old(clock) + 1
        && lancamentos == Migrated(old(lancamentos), old(nextId), legacyRows, clock)
    {
      if apartamentos != [] {
        return true;
      }
      if nextId in configs {
        return false;
      }
      var id := nextId;
      var a := if legacyConfig.Some? then MigratedApartamento(id, legacyConfig.value) else DefaultApartamento(id);
      var c := if legacyConfig.Some? then MigratedConfig(legacyConfig.value) else DefaultConfig;
      Insert(a, c);
      assert apartamentos == [] + [a] == [a];
      MigrateLancamentos(id, legacyRows);
      ok := true;
    }

    /**
     * The starting values of the month form: the month's own entry, else the
     * property's latest entry, else none (zeros and blanks).
     */
    method PrefillBase(apt: int, mes: string) returns (base: Option<Lancamento>)
      requires Valid()
      ensures (apt, mes) in lancamentos ==> base == Some(lancamentos[(apt, mes)].lanc)
      ensures (apt, mes) !in lancamentos && Meses(lancamentos, apt) != {} ==>
        base.Some? && IsLatest(lancamentos, apt, base.value.mes) && base.value == lancamentos[(apt, base.value.mes)].lanc
      ensures Meses(lancamentos, apt) == {} ==> base == None
    {
      var existing := GetLancamento(apt, mes);
      if existing.Some? {
        base := existing;
      } else {
        var latest := GetLatestLancamento(apt);
        base := Base(existing, latest);
      }
      InMeses(lancamentos, apt);
    }

    /**
     * The "Gerar PDF do mês" button: save the form, reload the configuration
     * and the entry, and build the statement. The entry read back is never
     * absent, and the statement shows exactly what was saved.
     */
    method SaveAndRender(apto: Apartamento, mes: string, data: Payload) returns (doc: Document)
      requires Valid()
      modifies this
      ensures Valid()
      ensures apto.id in configs
      ensures doc == Render(apto, configs[apto.id], FromPayload(mes, data))
      ensures lancamentos == Upserted(old(lancamentos), apto.id, mes, FromPayload(mes, data), clock)
      ensures clock == old(clock) + 1
      ensures configs == if apto.id in old(configs) then old(configs) else old(configs)[apto.id := DefaultConfig]
      ensures apartamentos == old(apartamentos) && nextId == old(nextId)
    {
      UpsertLancamento(apto.id, mes, data);
      var cfg := LoadConfig(apto.id);
      var lanc := GetLancamento(apto.id, mes);
      doc := Render(apto, cfg, lanc.value);
    }

    /** The history tab's button: the statement of a month listed for the property. */
    method RenderStored(apto: Apartamento, mes: string) returns (doc: Document)
      requires Valid() && (apto.id, mes) in lancamentos
      modifies this
      ensures Valid()
      ensures lancamentos == old(lancamentos) && apto.id in configs
      ensures doc == Render(apto, configs[apto.id], lancamentos[(apto.id, mes)].lanc)
      ensures configs == if apto.id in old(configs) then old(configs) else old(configs)[apto.id := DefaultConfig]
      ensures apartamentos == old(apartamentos) && nextId == old(nextId) && clock == old(clock)
    {
      var cfg := LoadConfig(apto.id);
      var lanc := GetLancamento(apto.id, mes);
      doc := Render(apto, cfg, lanc.value);
    }
  }
}
