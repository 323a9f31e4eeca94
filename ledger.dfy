/**
 * The `lancamentos` table as a map keyed by its primary key
 * `(apartamento_id, mes)` (app.py:170): one row per property and month, so a
 * key can never hold two rows. The functions here are the values the store
 * methods are proved against.
 */
module Ledger {
  import opened Wrappers
  import opened Text
  import opened Records

  type Key = (int, string)
  type Table = map<Key, Row>

  /** `get_lancamento`: the entry stored under exactly this property and month. */
  function Lookup(m: Table, apt: int, mes: string): Option<Lancamento>
  {
    if (apt, mes) in m then Some(m[(apt, mes)].lanc) else None
  }

  /**
   * The table after `INSERT ... ON CONFLICT(apartamento_id, mes) DO UPDATE`:
   * the entry is written whole, `updated_at` is `now`, and `created_at` is kept
   * when the row already existed.
   */
  function Upserted(m: Table, apt: int, mes: string, l: Lancamento, now: nat): (r: Table)
    ensures r.Keys == m.Keys + {(apt, mes)}
    ensures r[(apt, mes)].lanc == l && r[(apt, mes)].updatedAt == now
    ensures r[(apt, mes)].createdAt == if (apt, mes) in m then m[(apt, mes)].createdAt else now
    ensures forall k :: k in m && k != (apt, mes) ==> r[k] == m[k]
  {
    var created := if (apt, mes) in m then m[(apt, mes)].createdAt else now;
    m[(apt, mes) := Row(l, created, now)]
  }

  /** Reading right after writing gives back what was written; every other key reads as before. */
  lemma GetAfterUpsert(m: Table, apt: int, mes: string, l: Lancamento, now: nat, a: int, x: string)
    ensures Lookup(Upserted(m, apt, mes, l, now), a, x) == if (a, x) == (apt, mes) then Some(l) else Lookup(m, a, x)
  {
  }

  /** The entries of the table, without timestamps. */
  function Contents(m: Table): map<Key, Lancamento>
  {
    map k | k in m :: m[k].lanc
  }

  /** Writing the same entry twice leaves the same amounts and notes as writing it once. */
  lemma UpsertIdempotent(m: Table, apt: int, mes: string, l: Lancamento, t1: nat, t2: nat)
    ensures Contents(Upserted(Upserted(m, apt, mes, l, t1), apt, mes, l, t2)) == Contents(Upserted(m, apt, mes, l, t1))
  {
    var once := Upserted(m, apt, mes, l, t1);
    var twice := Upserted(once, apt, mes, l, t2);
    assert twice.Keys == once.Keys;
    forall k | k in twice ensures twice[k].lanc == once[k].lanc {
    }
  }

  /** The months stored for one property. */
  function Meses(m: Table, apt: int): set<string>
  {
    set k | k in m && k.0 == apt :: k.1
  }

  /** A month belongs to a property exactly when the table has a row under that pair. */
  lemma InMeses(m: Table, apt: int)
    ensures forall x :: x in Meses(m, apt) <==> (apt, x) in m
  {
    forall x | (apt, x) in m ensures x in Meses(m, apt) {
      var k := (apt, x);
      assert k in m && k.0 == apt;
    }
  }

  /** A write adds its month to its own property and leaves every other property's months as they were. */
  lemma MesesAfterUpsert(m: Table, apt: int, mes: string, l: Lancamento, now: nat, a: int)
    ensures Meses(Upserted(m, apt, mes, l, now), a) == Meses(m, a) + (if a == apt then {mes} else {})
  {
    var r := Upserted(m, apt, mes, l, now);
    assert forall x :: x in Meses(r, a) <==> (a, x) in r;
    assert forall x :: x in Meses(m, a) <==> (a, x) in m;
  }

  /** `x` is the greatest month of property `apt` under SQLite's text order. */
  predicate IsLatest(m: Table, apt: int, x: string)
  {
    x in Meses(m, apt) && forall y :: y in Meses(m, apt) ==> y == x || LexLess(y, x)
  }

  /** There is at most one latest month. */
  lemma LatestUnique(m: Table, apt: int, x: string, y: string)
    requires IsLatest(m, apt, x) && IsLatest(m, apt, y)
    ensures x == y
  {
    if x != y {
      assert LexLess(y, x) && LexLess(x, y);
      LexAsymmetric(x, y);
    }
  }

  /** Strictly decreasing months: `ORDER BY mes DESC` with no month twice. */
  predicate Descending(ms: seq<string>)
  {
    forall i, j :: 0 <= i < j < |ms| ==> LexLess(ms[j], ms[i])
  }

  /** `x` put into its place in a descending sequence. */
  function InsertDesc(ms: seq<string>, x: string): (r: seq<string>)
    ensures |r| == |ms| + 1
    ensures multiset(r) == multiset(ms) + multiset{x}
  {
    if ms == [] then [x]
    else if LexLess(ms[0], x) then [x] + ms
    else
      assert ms == [ms[0]] + ms[1..];
      [ms[0]] + InsertDesc(ms[1..], x)
  }

  /** Insertion keeps a sequence descending when the new month is not in it yet. */
  lemma {:induction false} InsertDescSorted(ms: seq<string>, x: string)
    requires Descending(ms) && x !in ms
    ensures Descending(InsertDesc(ms, x))
  {
    if ms != [] && !LexLess(ms[0], x) {
      LexTotal(ms[0], x);
      assert LexLess(x, ms[0]);
      InsertDescSorted(ms[1..], x);
      var tail := InsertDesc(ms[1..], x);
      var r := [ms[0]] + tail;
      forall j | 0 < j < |r| ensures LexLess(r[j], r[0]) {
        assert r[j] == tail[j - 1];
        assert r[j] in multiset(tail);
        assert r[j] == x || r[j] in multiset(ms[1..]);
        if r[j] != x {
          var k :| 0 <= k < |ms[1..]| && ms[1..][k] == r[j];
          assert ms[k + 1] == r[j];
        }
      }
    } else if ms != [] {
      forall j | 0 < j < |ms| + 1 ensures LexLess(([x] + ms)[j], x) {
        if j > 1 {
          assert LexLess(ms[j - 1], ms[0]);
          LexTransitive(ms[j - 1], ms[0], x);
        }
      }
    }
  }

  /** The first month of a descending list that holds exactly a property's months is its latest. */
  lemma HeadIsLatest(m: Table, apt: int, ms: seq<string>)
    requires Descending(ms) && (forall x :: x in ms <==> x in Meses(m, apt)) && ms != []
    ensures IsLatest(m, apt, ms[0])
  {
    forall y | y in Meses(m, apt) ensures y == ms[0] || LexLess(y, ms[0]) {
      var j :| 0 <= j < |ms| && ms[j] == y;
    }
  }
}
