/**
 * The second tab's choice of starting values (app.py:774-791): the month typed
 * by the user is read back into a token, and the form starts from that month's
 * own entry, or from the property's latest entry, or from zeros and blanks.
 */
module Prefill {
  import opened Wrappers
  import opened Decimal
  import opened Text
  import opened Formatting
  import opened Records

  /** `display_to_mes(mes_input.strip())`. */
  function MesFromInput(input: string): string
  {
    DisplayToMes(Trim(input))
  }

  /** The field starts as `mes_to_display` of a token, so leaving it untouched selects that token. */
  lemma MesFromUntouchedInput(t: string)
    requires IsMesToken(t)
    ensures MesFromInput(MesToDisplay(t)) == t
  {
    MesRoundTrip(t);
    var d := MesToDisplay(t);
    assert IsDigit(d[..2][0]) && IsDigit(d[3..][3]);
    TrimUnchanged(d);
  }

  /** Surrounding whitespace in the field does not change the month selected. */
  lemma MesFromInputIgnoresSpaces(input: string)
    ensures MesFromInput(input) == MesFromInput(Trim(input))
  {
    TrimIdempotent(input);
  }

  /** `existing if existing else get_latest_lancamento(apt_id)`. */
  function Base(existing: Option<Lancamento>, latest: Option<Lancamento>): Option<Lancamento>
  {
    if existing.Some? then existing else latest
  }

  /** The amounts the form shows: `float(base.get(key, 0.0)) if base else 0.0`. */
  function FormAmounts(base: Option<Lancamento>): Amounts
  {
    if base.Some? then base.value.valores else NoAmounts
  }

  /** The notes the form shows: `base.get(key_obs, "") if base else ""`. */
  function FormNotes(base: Option<Lancamento>): Notes
  {
    if base.Some? then base.value.obs else NoNotes
  }

  /**
   * The form starts from the month's own entry whenever it exists; only when it
   * is absent from the latest entry; and when both are absent every amount is 0
   * and every note is empty.
   */
  lemma PrefillChoice(existing: Option<Lancamento>, latest: Option<Lancamento>)
    ensures var b := Base(existing, latest);
      (existing.Some? ==> FormAmounts(b) == existing.value.valores && FormNotes(b) == existing.value.obs)
      && (existing.None? && latest.Some? ==>
            FormAmounts(b) == latest.value.valores && FormNotes(b) == latest.value.obs)
      && (existing.None? && latest.None? ==>
            forall i: Item :: FormAmounts(b).Of(i) == 0 && FormNotes(b).Of(i) == "")
  {
    if existing.None? && latest.None? {
      forall i: Item ensures NoAmounts.Of(i) == 0 && NoNotes.Of(i) == "" {
        match i
        case Aluguel =>
        case Condominio =>
        case Iptu =>
        case ConsumoAgua =>
        case SeguroIncendio =>
        case OutrasTaxas =>
        case OutrosDescontos =>
      }
    }
  }

  /**
   * Saving the form as it was filled in writes the starting entry's amounts and
   * notes under the selected month: a new month copies the latest one.
   */
  lemma SaveUntouchedForm(mes: string, base: Option<Lancamento>)
    ensures FromPayload(mes, ToPayload(FormAmounts(base), FormNotes(base)))
         == Lancamento(mes, FormAmounts(base), FormNotes(base))
    ensures base.Some? ==>
      FromPayload(mes, ToPayload(FormAmounts(base), FormNotes(base))) == Lancamento(mes, base.value.valores, base.value.obs)
    ensures base.None? ==>
      FromPayload(mes, ToPayload(FormAmounts(base), FormNotes(base))) == Lancamento(mes, NoAmounts, NoNotes)
  {
    PayloadRoundTrip(Lancamento(mes, FormAmounts(base), FormNotes(base)));
  }
}
