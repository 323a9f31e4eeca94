/**
 * The records the application keeps: a property (`apartamentos` row), its
 * fixed configuration (`configs` row) and the monthly ledger entry
 * (`lancamentos` row) with its seven amounts and seven notes. Amounts are whole
 * cents; a NULL text column is the empty string, as every reader turns it into
 * "" with `or ""`.
 */
module Records {
  import opened Wrappers

  /** The seven lines of a monthly statement, in the order of the table columns. */
  datatype Item = Aluguel | Condominio | Iptu | ConsumoAgua | SeguroIncendio | OutrasTaxas | OutrosDescontos

  /** Every item, in column order. */
  const Items: seq<Item> := [Aluguel, Condominio, Iptu, ConsumoAgua, SeguroIncendio, OutrasTaxas, OutrosDescontos]

  /** The seven amounts of one month, in cents. */
  datatype Amounts = Amounts(
    aluguel: nat, condominio: nat, iptu: nat, consumoAgua: nat,
    seguroIncendio: nat, outrasTaxas: nat, outrosDescontos: nat)
  {
    function Of(i: Item): nat
    {
      match i
      case Aluguel => aluguel
      case Condominio => condominio
      case Iptu => iptu
      case ConsumoAgua => consumoAgua
      case SeguroIncendio => seguroIncendio
      case OutrasTaxas => outrasTaxas
      case OutrosDescontos => outrosDescontos
    }
  }

  /** The seven `*_obs` notes of one month. */
  datatype Notes = Notes(
    aluguel: string, condominio: string, iptu: string, consumoAgua: string,
    seguroIncendio: string, outrasTaxas: string, outrosDescontos: string)
  {
    function Of(i: Item): string
    {
      match i
      case Aluguel => aluguel
      case Condominio => condominio
      case Iptu => iptu
      case ConsumoAgua => consumoAgua
      case SeguroIncendio => seguroIncendio
      case OutrasTaxas => outrasTaxas
      case OutrosDescontos => outrosDescontos
    }
  }

  const NoAmounts: Amounts := Amounts(0, 0, 0, 0, 0, 0, 0)
  const NoNotes: Notes := Notes("", "", "", "", "", "", "")

  /** What `get_lancamento` returns: the month token, the amounts and the notes. */
  datatype Lancamento = Lancamento(mes: string, valores: Amounts, obs: Notes)

  /** One entry of `list_lancamentos`: the month and its amounts, without the notes. */
  datatype Resumo = Resumo(mes: string, valores: Amounts)

  function Summary(l: Lancamento): Resumo
  {
    Resumo(l.mes, l.valores)
  }

  /**
   * The `data` dictionary handed to `upsert_lancamento`: an amount that is
   * missing from it is written as 0, a note that is missing or `None` as "".
   */
  datatype Payload = Payload(valores: map<Item, nat>, obs: map<Item, Option<string>>)

  function AmountOr0(p: Payload, i: Item): nat
  {
    if i in p.valores then p.valores[i] else 0
  }

  function NoteOrEmpty(p: Payload, i: Item): string
  {
    if i in p.obs then p.obs[i].GetOr("") else ""
  }

  /** The entry `upsert_lancamento(apt, mes, data)` writes. */
  function FromPayload(mes: string, p: Payload): (l: Lancamento)
    ensures l.mes == mes
    ensures forall i: Item :: l.valores.Of(i) == (if i in p.valores then p.valores[i] else 0)
    ensures forall i: Item :: l.obs.Of(i) == (if i in p.obs && p.obs[i].Some? then p.obs[i].value else "")
  {
    Lancamento(
      mes,
      Amounts(
        AmountOr0(p, Aluguel), AmountOr0(p, Condominio), AmountOr0(p, Iptu), AmountOr0(p, ConsumoAgua),
        AmountOr0(p, SeguroIncendio), AmountOr0(p, OutrasTaxas), AmountOr0(p, OutrosDescontos)),
      Notes(
        NoteOrEmpty(p, Aluguel), NoteOrEmpty(p, Condominio), NoteOrEmpty(p, Iptu), NoteOrEmpty(p, ConsumoAgua),
        NoteOrEmpty(p, SeguroIncendio), NoteOrEmpty(p, OutrasTaxas), NoteOrEmpty(p, OutrosDescontos)))
  }

  /** The payload the month form builds: every amount and every note present. */
  function ToPayload(v: Amounts, o: Notes): Payload
  {
    Payload(
      map[Aluguel := v.aluguel, Condominio := v.condominio, Iptu := v.iptu, ConsumoAgua := v.consumoAgua,
          SeguroIncendio := v.seguroIncendio, OutrasTaxas := v.outrasTaxas, OutrosDescontos := v.outrosDescontos],
      map[Aluguel := Some(o.aluguel), Condominio := Some(o.condominio), Iptu := Some(o.iptu),
          ConsumoAgua := Some(o.consumoAgua), SeguroIncendio := Some(o.seguroIncendio),
          OutrasTaxas := Some(o.outrasTaxas), OutrosDescontos := Some(o.outrosDescontos)])
  }

  /** Saving the form writes exactly the amounts and notes it shows: `FromPayload` undoes `ToPayload`. */
  lemma PayloadRoundTrip(l: Lancamento)
    ensures FromPayload(l.mes, ToPayload(l.valores, l.obs)) == l
  {
    var p := ToPayload(l.valores, l.obs);
    forall i: Item ensures i in p.valores && p.valores[i] == l.valores.Of(i) && i in p.obs && p.obs[i] == Some(l.obs.Of(i)) {
      match i
      case Aluguel =>
      case Condominio =>
      case Iptu =>
      case ConsumoAgua =>
      case SeguroIncendio =>
      case OutrasTaxas =>
      case OutrosDescontos =>
    }
    LancamentoExtensional(FromPayload(l.mes, p), l);
  }

  /** Two entries with the same month, amounts per item and notes per item are one entry. */
  lemma LancamentoExtensional(a: Lancamento, b: Lancamento)
    requires a.mes == b.mes
    requires forall i: Item :: a.valores.Of(i) == b.valores.Of(i) && a.obs.Of(i) == b.obs.Of(i)
    ensures a == b
  {
    assert a.valores.Of(Aluguel) == b.valores.Of(Aluguel);
    assert a.valores.Of(Condominio) == b.valores.Of(Condominio);
    assert a.valores.Of(Iptu) == b.valores.Of(Iptu);
    assert a.valores.Of(ConsumoAgua) == b.valores.Of(ConsumoAgua);
    assert a.valores.Of(SeguroIncendio) == b.valores.Of(SeguroIncendio);
    assert a.valores.Of(OutrasTaxas) == b.valores.Of(OutrasTaxas);
    assert a.valores.Of(OutrosDescontos) == b.valores.Of(OutrosDescontos);
    assert a.obs.Of(Aluguel) == b.obs.Of(Aluguel);
    assert a.obs.Of(Condominio) == b.obs.Of(Condominio);
    assert a.obs.Of(Iptu) == b.obs.Of(Iptu);
    assert a.obs.Of(ConsumoAgua) == b.obs.Of(ConsumoAgua);
    assert a.obs.Of(SeguroIncendio) == b.obs.Of(SeguroIncendio);
    assert a.obs.Of(OutrasTaxas) == b.obs.Of(OutrasTaxas);
    assert a.obs.Of(OutrosDescontos) == b.obs.Of(OutrosDescontos);
  }

  /** A stored ledger row: the entry and its two timestamps, read from an abstract clock. */
  datatype Row = Row(lanc: Lancamento, createdAt: nat, updatedAt: nat)

  /** A row of `apartamentos`. */
  datatype Apartamento = Apartamento(id: int, apelido: string, imovel: string, bairro: string)

  /** The twelve text columns of `configs`. */
  datatype ConfigField =
    | LocadorNome | LocadorDoc | LocatarioNome | LocatarioDoc
    | Banco | Agencia | Conta | TipoConta | Titular | TitularDoc | Pix | ContatoComprovante

  /** A row of `configs` (without its key). */
  datatype Config = Config(
    locadorNome: string, locadorDoc: string, locatarioNome: string, locatarioDoc: string,
    vencimentoDia: int,
    banco: string, agencia: string, conta: string, tipoConta: string,
    titular: string, titularDoc: string, pix: string, contatoComprovante: string)
  {
    function Get(f: ConfigField): string
    {
      match f
      case LocadorNome => locadorNome
      case LocadorDoc => locadorDoc
      case LocatarioNome => locatarioNome
      case LocatarioDoc => locatarioDoc
      case Banco => banco
      case Agencia => agencia
      case Conta => conta
      case TipoConta => tipoConta
      case Titular => titular
      case TitularDoc => titularDoc
      case Pix => pix
      case ContatoComprovante => contatoComprovante
    }
  }

  /** The row `INSERT INTO configs (apartamento_id, vencimento_dia) VALUES (?, 5)` creates. */
  const DefaultConfig: Config := Config("", "", "", "", 5, "", "", "", "", "", "", "", "")

  /** `int(x or 5)`: the due day written when the given one is missing or 0. */
  function StoredDueDay(v: Option<int>): (d: int)
    ensures d != 0
    ensures d == 5 <==> (v == None || v == Some(0) || v == Some(5))
    ensures v.Some? && v.value != 0 ==> d == v.value
  {
    if v.Some? && v.value != 0 then v.value else 5
  }

  /**
   * The `cfg` dictionary handed to `save_config`: a text field missing from it
   * is written as "".
   */
  datatype ConfigInput = ConfigInput(texts: map<ConfigField, string>, vencimentoDia: Option<int>)

  function TextOrEmpty(texts: map<ConfigField, string>, f: ConfigField): string
  {
    if f in texts then texts[f] else ""
  }

  /** The row `save_config` (and the legacy migration) writes from a dictionary. */
  function ConfigFrom(texts: map<ConfigField, string>, vencimentoDia: Option<int>): (c: Config)
    ensures forall f: ConfigField :: c.Get(f) == (if f in texts then texts[f] else "")
    ensures c.vencimentoDia == StoredDueDay(vencimentoDia)
  {
    Config(
      TextOrEmpty(texts, LocadorNome), TextOrEmpty(texts, LocadorDoc),
      TextOrEmpty(texts, LocatarioNome), TextOrEmpty(texts, LocatarioDoc),
      StoredDueDay(vencimentoDia),
      TextOrEmpty(texts, Banco), TextOrEmpty(texts, Agencia), TextOrEmpty(texts, Conta),
      TextOrEmpty(texts, TipoConta), TextOrEmpty(texts, Titular), TextOrEmpty(texts, TitularDoc),
      TextOrEmpty(texts, Pix), TextOrEmpty(texts, ContatoComprovante))
  }

  /** Saving an empty dictionary writes the same row a fresh property gets. */
  lemma EmptyInputIsDefault()
    ensures ConfigFrom(map[], None) == DefaultConfig
  {
  }
}
