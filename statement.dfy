/**
 * What `generate_pdf_bytes` computes for one month's statement: subtotal and
 * total, the due day, the texts placed in the document and the table of
 * amounts; plus the history table of the third tab and the download file name.
 * Only the values that go into the document are modelled, not its layout.
 */
module Statement {
  import opened Wrappers
  import opened Decimal
  import opened Text
  import opened Formatting
  import opened Records

  /** The six charges that make up the subtotal; the discount is not one of them. */
  const Charges: seq<Item> := [Aluguel, Condominio, Iptu, ConsumoAgua, SeguroIncendio, OutrasTaxas]

  function Subtotal(v: Amounts): nat
  {
    v.aluguel + v.condominio + v.iptu + v.consumoAgua + v.seguroIncendio + v.outrasTaxas
  }

  /** The amount due; nothing clamps it, so a large discount makes it negative. */
  function Total(v: Amounts): int
  {
    Subtotal(v) - v.outrosDescontos
  }

  /** Reference definition: the sum of the given items' amounts. */
  function SumOf(v: Amounts, items: seq<Item>): nat
  {
    if items == [] then 0 else v.Of(items[0]) + SumOf(v, items[1..])
  }

  /** The subtotal adds the six charges and the total subtracts the discount from it. */
  lemma TotalIsChargesMinusDiscount(v: Amounts)
    ensures OutrosDescontos !in Charges && |Charges| == 6
    ensures Subtotal(v) == SumOf(v, Charges)
    ensures Total(v) == SumOf(v, Charges) - v.Of(OutrosDescontos)
  {
    var c := Charges;
    assert c[1..][1..][1..][1..][1..][1..] == [];
    assert SumOf(v, c[1..][1..][1..][1..][1..]) == v.outrasTaxas;
    assert SumOf(v, c[1..][1..][1..][1..]) == v.seguroIncendio + v.outrasTaxas;
    assert SumOf(v, c[1..][1..][1..]) == v.consumoAgua + v.seguroIncendio + v.outrasTaxas;
    assert SumOf(v, c[1..][1..]) == v.iptu + v.consumoAgua + v.seguroIncendio + v.outrasTaxas;
    assert SumOf(v, c[1..]) == v.condominio + v.iptu + v.consumoAgua + v.seguroIncendio + v.outrasTaxas;
  }

  /** The discount takes no part in the subtotal: changing it moves the total by the same amount. */
  lemma DiscountOnlyMovesTotal(v: Amounts, d: nat)
    ensures Subtotal(v.(outrosDescontos := d)) == Subtotal(v)
    ensures Total(v.(outrosDescontos := d)) == Total(v) + v.outrosDescontos - d
  {
  }

  /** The total is negative exactly when the discount exceeds the subtotal. */
  lemma NegativeTotal(v: Amounts)
    ensures Total(v) < 0 <==> v.outrosDescontos > Subtotal(v)
  {
  }

  /** `dia = int(cfg.get("vencimento_dia") or 5)`, written as `{dia:02d}`. */
  function DueDayText(vencimentoDia: int): (s: string)
    ensures |s| >= 2
  {
    var d := StoredDueDay(Some(vencimentoDia));
    assert |FormatInt(d, 2)| >= 2 by {
      if d >= 0 { assert |ZeroPad(d, 2)| >= 2; } else { assert |ZeroPad(-d, 1)| >= 1; }
    }
    FormatInt(d, 2)
  }

  /** A positive stored due day is printed with at least two digits, and reads back as itself. */
  lemma DueDayTextReadsBack(vencimentoDia: int)
    requires vencimentoDia > 0
    ensures IsNumeral(DueDayText(vencimentoDia)) && Value(DueDayText(vencimentoDia)) == vencimentoDia
  {
    ValueOfZeroPad(vencimentoDia, 2);
  }

  /** A due day of 0 is printed as the default day 5. */
  lemma DueDayDefault()
    ensures DueDayText(0) == "05"
  {
    assert ToDecimal(5) == "5";
    assert Zeros(1) == "0";
  }

  const GenericComprovante: string := "Favor " + "enviar o comprovante de pagamento ap\U{f3}s a quita\U{e7}\U{e3}o."
  const ComprovantePrefix: string := "<b>Comprovante:</b> enviar para "

  /** The last paragraph: where to send the proof of payment. */
  function ComprovanteLine(contato: string): string
  {
    var c := Trim(contato);
    if c != "" then ComprovantePrefix + c else GenericComprovante
  }

  /**
   * The generic sentence is printed exactly when the contact holds nothing but
   * whitespace; otherwise the line names the contact, stripped.
   */
  lemma ComprovanteCases(contato: string)
    ensures ComprovanteLine(contato) == GenericComprovante <==> AllSpace(contato)
    ensures !AllSpace(contato) ==>
      ComprovanteLine(contato) == ComprovantePrefix + Trim(contato)
      && !IsSpace(Trim(contato)[0]) && !IsSpace(Trim(contato)[|Trim(contato)| - 1])
  {
    var c := Trim(contato);
    TrimEmptyIffAllSpace(contato);
    TrimIsInfix(contato);
    if c != [] {
      var r := ComprovantePrefix + c;
      assert ComprovanteLine(contato) == r;
      assert r[0] == '<' && GenericComprovante[0] == 'F';
    }
  }

  /** `f"Boleto_{apelido.replace(' ', '_')}_{mes}.pdf"`. */
  function FileName(apelido: string, mes: string): string
  {
    "Boleto_" + Replace(apelido, ' ', '_') + "_" + mes + ".pdf"
  }

  /**
   * The name is `Boleto_`, the nickname with every space made an underscore,
   * `_`, the month token and `.pdf`.
   */
  lemma {:induction false} FileNameShape(apelido: string, mes: string)
    ensures var r := FileName(apelido, mes);
      |r| == |apelido| + |mes| + 12
      && r[..7] == "Boleto_" && r[|r| - 4..] == ".pdf"
      && r[7 + |apelido|] == '_' && r[8 + |apelido|..|r| - 4] == mes
      && (forall i :: 0 <= i < |apelido| ==> r[7 + i] == if apelido[i] == ' ' then '_' else apelido[i])
  {
    var r := FileName(apelido, mes);
    var e := Replace(apelido, ' ', '_');
    assert r == "Boleto_" + e + "_" + mes + ".pdf";
    forall i | 0 <= i < |apelido| ensures r[7 + i] == if apelido[i] == ' ' then '_' else apelido[i] {
      ReplaceAt(apelido, ' ', '_', i);
      assert r[7 + i] == e[i];
    }
  }

  /** The file name holds no space exactly when the month token holds none. */
  lemma FileNameSpaces(apelido: string, mes: string)
    ensures ' ' !in FileName(apelido, mes) <==> ' ' !in mes
  {
    var r := FileName(apelido, mes);
    FileNameShape(apelido, mes);
    if ' ' in mes {
      var j :| 0 <= j < |mes| && mes[j] == ' ';
      assert r[8 + |apelido| + j] == ' ';
    } else {
      forall k | 0 <= k < |r| ensures r[k] != ' ' {
        if k < 7 {
          assert r[k] == r[..7][k] == "Boleto_"[k];
        } else if k < 7 + |apelido| {
          var i := k - 7;
          assert r[7 + i] == if apelido[i] == ' ' then '_' else apelido[i];
        } else if k == 7 + |apelido| {
        } else if k < |r| - 4 {
          assert r[k] == mes[k - 8 - |apelido|];
        } else {
          assert r[k] == r[|r| - 4..][k - (|r| - 4)] == ".pdf"[k - (|r| - 4)];
        }
      }
    }
  }

  /** For one property, different months never share a file name. */
  lemma FileNameDistinguishesMonths(apelido: string, m1: string, m2: string)
    requires FileName(apelido, m1) == FileName(apelido, m2)
    ensures m1 == m2
  {
    FileNameShape(apelido, m1);
    FileNameShape(apelido, m2);
  }

  /** A row of the statement's table. */
  datatype Line = Line(descricao: string, observacao: string, valor: string)

  /** The values `generate_pdf_bytes` places in the document, paragraph by paragraph. */
  datatype Document = Document(
    titulo: string,
    imovel: string,
    locador: string,
    locatario: string,
    referencia: string,
    tabela: seq<Line>,
    vencimento: string,
    pagamento: seq<string>,
    comprovante: string)

  const Titulo: string := "BOLETO / DEMONSTRATIVO DE COBRAN\U{c7}A \U{2013} ALUGUEL"

  /** The descriptions of the seven item rows, in table order. */
  function Label(i: Item): string
  {
    match i
    case Aluguel => "Aluguel Mensal"
    case Condominio => "Condom\U{ed}nio"
    case Iptu => "IPTU (parcela mensal)"
    case ConsumoAgua => "Consumo de \U{e1}gua"
    case SeguroIncendio => "Seguro de inc\U{ea}ndio"
    case OutrasTaxas => "Outras taxas"
    case OutrosDescontos => "Outros Descontos"
  }

  function ItemLine(l: Lancamento, i: Item): Line
  {
    Line(Label(i), l.obs.Of(i), Brl(l.valores.Of(i)))
  }

  const Header: Line := Line("Descri\U{e7}\U{e3}o", "Observa\U{e7}\U{e3}o", "Valor (R$)")

  /** The six charge rows, in the order of `Charges`. */
  function ChargeLines(l: Lancamento): (r: seq<Line>)
    ensures |r| == 6 && forall k :: 0 <= k < 6 ==> r[k] == ItemLine(l, Charges[k])
  {
    seq(6, k requires 0 <= k < 6 => ItemLine(l, Charges[k]))
  }

  /** The last three rows: subtotal, discount, total. */
  function Footer(l: Lancamento): (r: seq<Line>)
    ensures |r| == 3 && r[1] == ItemLine(l, OutrosDescontos)
  {
    [Line("Subtotal", "", Brl(Subtotal(l.valores))),
     ItemLine(l, OutrosDescontos),
     Line("TOTAL A PAGAR", "", Brl(Total(l.valores)))]
  }

  /** The ten rows of the table: header, six charges, subtotal, discount, total. */
  function Table(l: Lancamento): (t: seq<Line>)
    ensures |t| == 10
  {
    [Header] + ChargeLines(l) + Footer(l)
  }

  /** The statement for property `apto`, configuration `cfg` and ledger entry `l`. */
  function Render(apto: Apartamento, cfg: Config, l: Lancamento): Document
  {
    var ref := MesToDisplay(l.mes);
    Document(
      Titulo,
      "<b>Im\U{f3}vel:</b> " + Trim(apto.imovel) + "<br/>" + Trim(apto.bairro),
      "<b>Locador:</b> " + Trim(cfg.locadorNome) + "<br/><b>CPF/CNPJ:</b> " + Trim(cfg.locadorDoc),
      "<b>Locat\U{e1}rio:</b> " + Trim(cfg.locatarioNome) + "<br/><b>CPF/CNPJ:</b> " + Trim(cfg.locatarioDoc),
      "<b>Refer\U{ea}ncia:</b> Aluguel referente a " + ref,
      Table(l),
      "<b>Vencimento:</b> dia " + DueDayText(cfg.vencimentoDia) + " / " + ref,
      ["<b>Dados para Pagamento / Dep\U{f3}sito</b>",
       "Banco: " + cfg.banco,
       "Ag\U{ea}ncia: " + cfg.agencia,
       "Conta: " + cfg.conta,
       "Tipo: " + cfg.tipoConta,
       "Titular: " + cfg.titular,
       "CPF/CNPJ: " + cfg.titularDoc,
       "PIX (se houver): " + cfg.pix],
      ComprovanteLine(cfg.contatoComprovante))
  }

  /** The table rows, taken apart: header, the six charges in order, then the three footer rows. */
  lemma TableParts(l: Lancamento)
    ensures var t := Table(l);
      t[0] == Header
      && (forall k :: 1 <= k <= 6 ==> t[k] == ChargeLines(l)[k - 1])
      && t[7] == Footer(l)[0] && t[8] == Footer(l)[1] && t[9] == Footer(l)[2]
  {
    var t := Table(l);
    var c, f := ChargeLines(l), Footer(l);
    assert t == [Header] + c + f;
    forall k | 1 <= k <= 6 ensures t[k] == c[k - 1] {
    }
    assert t[7] == f[0] && t[8] == f[1] && t[9] == f[2];
  }

  /** The table rows, in full: header, the six charges in order, subtotal, discount, total. */
  lemma TableRows(l: Lancamento)
    ensures var t := Table(l);
      t[0] == Header
      && (forall k :: 1 <= k <= 6 ==> t[k] == ItemLine(l, Charges[k - 1]))
      && t[7] == Line("Subtotal", "", Brl(Subtotal(l.valores)))
      && t[8] == ItemLine(l, OutrosDescontos)
      && t[9] == Line("TOTAL A PAGAR", "", Brl(Total(l.valores)))
  {
    TableParts(l);
  }

  /**
   * Every amount column of the statement reads back as the amount it shows:
   * the six charges in order, the subtotal, the discount and the total; each
   * item row carries that item's note.
   */
  lemma RenderAmounts(apto: Apartamento, cfg: Config, l: Lancamento)
    ensures var t := Render(apto, cfg, l).tabela;
      |t| == 10
      && (forall k :: 1 <= k <= 6 ==>
            ParseBrl(t[k].valor) == Some(l.valores.Of(Charges[k - 1]) as int)
            && t[k].observacao == l.obs.Of(Charges[k - 1]))
      && ParseBrl(t[7].valor) == Some(Subtotal(l.valores) as int)
      && ParseBrl(t[8].valor) == Some(l.valores.outrosDescontos as int)
      && t[8].observacao == l.obs.outrosDescontos
      && ParseBrl(t[9].valor) == Some(Total(l.valores))
  {
    RenderTable(apto, cfg, l);
    TableAmounts(l);
  }

  lemma RenderTable(apto: Apartamento, cfg: Config, l: Lancamento)
    ensures Render(apto, cfg, l).tabela == Table(l)
  {
  }

  lemma TableAmounts(l: Lancamento)
    ensures var t := Table(l);
      (forall k :: 1 <= k <= 6 ==>
            ParseBrl(t[k].valor) == Some(l.valores.Of(Charges[k - 1]) as int)
            && t[k].observacao == l.obs.Of(Charges[k - 1]))
      && ParseBrl(t[7].valor) == Some(Subtotal(l.valores) as int)
      && ParseBrl(t[8].valor) == Some(l.valores.outrosDescontos as int)
      && t[8].observacao == l.obs.outrosDescontos
      && ParseBrl(t[9].valor) == Some(Total(l.valores))
  {
    TableChargeAmounts(l);
    TableTotalAmounts(l);
  }

  lemma TableChargeAmounts(l: Lancamento)
    ensures var t := Table(l);
      forall k :: 1 <= k <= 6 ==>
        ParseBrl(t[k].valor) == Some(l.valores.Of(Charges[k - 1]) as int)
        && t[k].observacao == l.obs.Of(Charges[k - 1])
  {
    var t := Table(l);
    TableRows(l);
    forall k | 1 <= k <= 6
      ensures ParseBrl(t[k].valor) == Some(l.valores.Of(Charges[k - 1]) as int)
      ensures t[k].observacao == l.obs.Of(Charges[k - 1])
    {
      ItemLineReadsBack(l, Charges[k - 1]);
    }
  }

  lemma TableTotalAmounts(l: Lancamento)
    ensures var t := Table(l);
      ParseBrl(t[7].valor) == Some(Subtotal(l.valores) as int)
      && ParseBrl(t[8].valor) == Some(l.valores.outrosDescontos as int)
      && t[8].observacao == l.obs.outrosDescontos
      && ParseBrl(t[9].valor) == Some(Total(l.valores))
  {
    SubtotalReadsBack(l);
    DiscountReadsBack(l);
    TotalReadsBack(l);
  }

  lemma SubtotalReadsBack(l: Lancamento)
    ensures ParseBrl(Table(l)[7].valor) == Some(Subtotal(l.valores) as int)
  {
    TableParts(l);
    ReadsBack(Table(l)[7].valor, Subtotal(l.valores));
  }

  lemma DiscountReadsBack(l: Lancamento)
    ensures ParseBrl(Table(l)[8].valor) == Some(l.valores.outrosDescontos as int)
    ensures Table(l)[8].observacao == l.obs.outrosDescontos
  {
    TableParts(l);
    ItemLineReadsBack(l, OutrosDescontos);
  }

  lemma TotalReadsBack(l: Lancamento)
    ensures ParseBrl(Table(l)[9].valor) == Some(Total(l.valores))
  {
    TableParts(l);
    ReadsBack(Table(l)[9].valor, Total(l.valores));
  }

  lemma ReadsBack(text: string, cents: int)
    requires text == Brl(cents)
    ensures ParseBrl(text) == Some(cents)
  {
    BrlRoundTrip(cents);
  }

  lemma ItemLineReadsBack(l: Lancamento, i: Item)
    ensures ParseBrl(ItemLine(l, i).valor) == Some(l.valores.Of(i) as int)
    ensures ItemLine(l, i).observacao == l.obs.Of(i)
  {
    BrlRoundTrip(l.valores.Of(i));
  }

  /** The reference line and the due-day line both show the month as `MM/AAAA`. */
  lemma RenderReference(apto: Apartamento, cfg: Config, y: string, m: string, l: Lancamento)
    requires IsNumeral(y) && IsNumeral(m) && l.mes == y + "-" + m
    ensures var d := Render(apto, cfg, l);
      var ref := ZeroPad(Value(m), 2) + "/" + ZeroPad(Value(y), 4);
      d.referencia == "<b>Refer\U{ea}ncia:</b> Aluguel referente a " + ref
      && d.vencimento == "<b>Vencimento:</b> dia " + DueDayText(cfg.vencimentoDia) + " / " + ref
  {
    MesToDisplayOfParts(y, m);
  }

  /** A row of the history table in the third tab. */
  datatype HistoryRow = HistoryRow(mes: string, valores: seq<string>, total: string)

  function History(r: Resumo): (h: HistoryRow)
    ensures |h.valores| == 7
  {
    HistoryRow(MesToDisplay(r.mes), seq(7, k requires 0 <= k < 7 => Brl(r.valores.Of(Items[k]))), Brl(Total(r.valores)))
  }

  /** The history table shows the same total and the same amounts the statement of that month shows. */
  lemma HistoryAgreesWithStatement(apto: Apartamento, cfg: Config, l: Lancamento)
    ensures var h := History(Summary(l));
      var t := Render(apto, cfg, l).tabela;
      h.total == t[9].valor && h.valores[6] == t[8].valor
      && (forall k :: 1 <= k <= 6 ==> h.valores[k - 1] == t[k].valor)
  {
    RenderTable(apto, cfg, l);
    HistoryAgreesWithTable(l);
  }

  lemma HistoryAgreesWithTable(l: Lancamento)
    ensures var h := History(Summary(l));
      var t := Table(l);
      h.total == t[9].valor && h.valores[6] == t[8].valor
      && (forall k :: 1 <= k <= 6 ==> h.valores[k - 1] == t[k].valor)
  {
    var t := Table(l);
    TableRows(l);
    ChargesAreTheFirstItems();
    var hv := History(Summary(l)).valores;
    forall k | 1 <= k <= 6 ensures hv[k - 1] == t[k].valor {
      assert hv[k - 1] == Brl(l.valores.Of(Items[k - 1]));
    }
    assert hv[6] == Brl(l.valores.Of(Items[6]));
  }

  lemma ChargesAreTheFirstItems()
    ensures Charges == Items[..6] && Items[6] == OutrosDescontos
  {
  }
}
