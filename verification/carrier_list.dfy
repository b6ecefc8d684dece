/** `src/pages/Transportadoras/TransportadorasList.js`: the carrier table.
    It covers the search box, which licences each row and the detail dialog
    show, and the colour and label of a licence's expiry chip. The current
    time enters as `daysUntil`, which gives for an expiry string the
    (fractional) number of days from now until the local date
    `new Date(year, month - 1, day)` builds from its `split('/')` parts, or
    `None` when that date is invalid. */
module CarrierList {
  import opened Wrappers
  import opened Seqs
  import opened Text
  import opened Domain

  // ---------------------------------------------------------------------
  // Search
  // ---------------------------------------------------------------------

  /** The search predicate: name and country are compared lower-cased, the
      registration number as typed. */
  predicate MatchesSearch(c: Carrier, term: string) {
    || Contains(Lower(c.nome), Lower(term))
    || Contains(c.numeroRegistro, term)
    || Contains(Lower(c.pais), Lower(term))
  }

  /** `filteredTransportadoras`. */
  function FilterCarriers(data: Option<seq<Carrier>>, term: string): (r: seq<Carrier>)
    ensures data.None? ==> r == []
    ensures data.Some? ==> IsSubsequence(r, data.value)
    ensures forall i :: 0 <= i < |r| ==> MatchesSearch(r[i], term)
    ensures data.Some? ==>
              forall i :: 0 <= i < |data.value| && MatchesSearch(data.value[i], term) ==> data.value[i] in r
    ensures data.Some? ==>
              forall x :: multiset(r)[x] == if MatchesSearch(x, term) then multiset(data.value)[x] else 0
  {
    if data.None? then [] else Filter((c: Carrier) => MatchesSearch(c, term), data.value)
  }

  /** An empty search box shows every carrier, in order. */
  lemma EmptySearchKeepsAll(data: seq<Carrier>)
    ensures FilterCarriers(Some(data), "") == data
  {
    assert Lower("") == "";
    forall i | 0 <= i < |data| ensures MatchesSearch(data[i], "") {
      ContainsEmpty(Lower(data[i].nome));
    }
    FilterKeepsAll((c: Carrier) => MatchesSearch(c, ""), data);
  }

  /** Typing the term in upper or lower case finds the same carriers by name
      and country: only the registration-number test sees the difference. */
  lemma SearchNameIgnoresCase(c: Carrier, term: string)
    ensures Contains(Lower(c.nome), Lower(term)) <==> Contains(Lower(c.nome), Lower(Lower(term)))
    ensures MatchesSearch(c, term) && !Contains(c.numeroRegistro, term) ==> MatchesSearch(c, Lower(term))
  {
    LowerIdempotent(term);
  }

  // ---------------------------------------------------------------------
  // Expiry chip
  // ---------------------------------------------------------------------

  datatype ChipColor = SuccessChip | WarningChip | ErrorChip

  /** The average month length the list divides by. */
  const DaysPerMonth: real := 30.44

  /** The colour chosen for an expiry `daysUntil` days away: expired before
      today, due within six average months, or valid. An invalid date
      compares false everywhere and so stays valid. */
  function ExpiryColor(daysUntil: Option<real>): (c: ChipColor)
    ensures c == ErrorChip <==> daysUntil.Some? && daysUntil.value < 0.0
    ensures c == WarningChip <==> daysUntil.Some? && 0.0 <= daysUntil.value <= 182.64
    ensures c == SuccessChip <==> daysUntil.None? || daysUntil.value > 182.64
  {
    match daysUntil
    case None => SuccessChip
    case Some(d) =>
      if d < 0.0 then ErrorChip
      else if d / DaysPerMonth <= 6.0 then WarningChip
      else SuccessChip
  }

  /** Severity order: expired, then due soon, then valid. */
  function ColorRank(c: ChipColor): nat {
    match c
    case ErrorChip => 0
    case WarningChip => 1
    case SuccessChip => 2
  }

  /** A later expiry is never shown as more urgent. */
  lemma ExpiryColorMonotone(d1: real, d2: real)
    requires d1 <= d2
    ensures ColorRank(ExpiryColor(Some(d1))) <= ColorRank(ExpiryColor(Some(d2)))
  {
  }

  datatype LicenseChip = LicenseChip(color: ChipColor, text: string)

  /** The chip of one licence: `dest:licenca`, then for a licence with an
      expiry " • Vencida: " or " • Vence em: " and the expiry as typed. */
  function ChipFor(l: License, daysUntil: string -> Option<real>): (chip: LicenseChip)
    ensures l.paisDestino + ":" + l.licenca <= chip.text
    ensures l.vencimentoLicenca == "" ==> chip == LicenseChip(SuccessChip, l.paisDestino + ":" + l.licenca)
    ensures l.vencimentoLicenca != "" ==>
              && chip.color == ExpiryColor(daysUntil(l.vencimentoLicenca))
              && (chip.color == ErrorChip <==>
                    chip.text == l.paisDestino + ":" + l.licenca + " • Vencida: " + l.vencimentoLicenca)
              && (chip.color != ErrorChip <==>
                    chip.text == l.paisDestino + ":" + l.licenca + " • Vence em: " + l.vencimentoLicenca)
  {
    var base := l.paisDestino + ":" + l.licenca;
    if l.vencimentoLicenca == "" then LicenseChip(SuccessChip, base)
    else
      var color := ExpiryColor(daysUntil(l.vencimentoLicenca));
      var suffix := if color == ErrorChip then " • Vencida: " else " • Vence em: ";
      var text := base + suffix + l.vencimentoLicenca;
      assert |" • Vencida: "| != |" • Vence em: "|;
      assert text[..|base|] == base;
      LicenseChip(color, text)
  }

  // ---------------------------------------------------------------------
  // Which licences are shown
  // ---------------------------------------------------------------------

  predicate NotToBrazil(l: License) {
    l.paisDestino != Brazil
  }

  /** The pair a Brazilian row deduplicates on. */
  function RouteKey(l: License): (string, string) {
    (l.paisDestino, l.vencimentoLicenca)
  }

  /** `paisesDestino?.[0]`, as a list of at most one licence. */
  function FirstOnly(lics: seq<License>): (r: seq<License>)
    ensures |r| <= 1
    ensures |r| == 1 <==> |lics| > 0
    ensures |r| == 1 ==> r[0] == lics[0]
  {
    if |lics| == 0 then [] else [lics[0]]
  }

  /** The licences a carrier's table cell shows: the first licence of a
      foreign carrier; for a Brazilian carrier, its licences to other
      countries with a repeated (destination, expiry) pair shown once, at
      its first occurrence. */
  function TableLicences(c: Carrier): (r: seq<License>)
    ensures c.pais != Brazil ==> r == FirstOnly(c.paisesDestino)
    ensures c.pais == Brazil ==>
              var shown := Filter(NotToBrazil, c.paisesDestino);
              && r == DistinctBy(shown, RouteKey, {})
              && IsSubsequence(r, shown)
              && (forall i, j :: 0 <= i < j < |r| ==> RouteKey(r[i]) != RouteKey(r[j]))
              && Keys(r, RouteKey) == Keys(shown, RouteKey)
  {
    if c.pais != Brazil then FirstOnly(c.paisesDestino)
    else
      var shown := Filter(NotToBrazil, c.paisesDestino);
      FirstOccurrencesAreDistinct(shown, RouteKey, 0);
      assert shown[0..] == shown;
      assert Keys(shown[..0], RouteKey) == {};
      FirstOccurrencesFrom(shown, RouteKey, 0)
  }

  /** The licences the detail dialog lists: the first licence of a foreign
      carrier, every licence to another country for a Brazilian one. */
  function DetailLicences(c: Carrier): (r: seq<License>)
    ensures c.pais != Brazil ==> r == FirstOnly(c.paisesDestino)
    ensures c.pais == Brazil ==>
              && IsSubsequence(r, c.paisesDestino)
              && (forall i :: 0 <= i < |r| ==> r[i].paisDestino != Brazil)
              && (forall i :: 0 <= i < |c.paisesDestino| && c.paisesDestino[i].paisDestino != Brazil
                              ==> c.paisesDestino[i] in r)
              && (forall l :: multiset(r)[l] == if l.paisDestino != Brazil then multiset(c.paisesDestino)[l] else 0)
  {
    if c.pais != Brazil then FirstOnly(c.paisesDestino)
    else Filter(NotToBrazil, c.paisesDestino)
  }

  /** The table cell shows a selection of the dialog's licences, in the
      dialog's order, and for a Brazilian carrier it covers every
      (destination, expiry) pair the dialog lists. */
  lemma TableWithinDetail(c: Carrier)
    ensures IsSubsequence(TableLicences(c), DetailLicences(c))
    ensures Keys(TableLicences(c), RouteKey) == Keys(DetailLicences(c), RouteKey)
  {
    if c.pais != Brazil {
      SubsequenceReflexive(DetailLicences(c));
    }
  }

  /** The chips of a list of licences, in order. */
  function Chips(lics: seq<License>, daysUntil: string -> Option<real>): (r: seq<LicenseChip>)
    ensures |r| == |lics|
    ensures forall i :: 0 <= i < |lics| ==> r[i] == ChipFor(lics[i], daysUntil)
  {
    seq(|lics|, i requires 0 <= i < |lics| => ChipFor(lics[i], daysUntil))
  }
}
