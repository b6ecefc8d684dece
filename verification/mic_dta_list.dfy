/** `src/pages/MicDta/MicDtaList.js`: the MIC/DTA table's tabs, search box
    and carrier filter. Each tab reads its own server query. */
module MicDtaList {
  import opened Wrappers
  import opened Seqs
  import opened Text
  import opened Domain

  /** One server query: its data (absent until loaded) and loading flag. */
  datatype Query = Query(data: Option<seq<MicDta>>, loading: bool)

  /** The tab index: 0 all, 1 NORMAL, 2 LASTRE. */
  const NormalTab: int := 1
  const LastreTab: int := 2

  /** `getCurrentData` and `getCurrentLoading` read this one query, so the
      table and its spinner always follow the same dataset. */
  function CurrentQuery(tab: int, all: Query, normal: Query, lastre: Query): (q: Query)
    ensures tab == NormalTab ==> q == normal
    ensures tab == LastreTab ==> q == lastre
    ensures tab != NormalTab && tab != LastreTab ==> q == all
  {
    match tab
    case 1 => normal
    case 2 => lastre
    case _ => all
  }

  /** The search test: the lower-cased term occurs in the lower-cased number
      or carrier name, or in the CRT number when there is one. */
  predicate MatchesSearch(m: MicDta, term: string) {
    var t := Lower(term);
    || Contains(Lower(m.numero), t)
    || Contains(Lower(m.transportadoraNome), t)
    || (m.crtNumero != "" && Contains(Lower(m.crtNumero), t))
  }

  predicate MatchesCarrier(m: MicDta, selected: string) {
    selected == "" || DecimalText(m.transportadoraId) == selected
  }

  predicate Shown(m: MicDta, term: string, selected: string) {
    MatchesSearch(m, term) && MatchesCarrier(m, selected)
  }

  /** `filteredMicDtas` over the current tab's data. */
  function FilterMicDtas(data: Option<seq<MicDta>>, term: string, selected: string): (r: seq<MicDta>)
    ensures data.None? ==> r == []
    ensures data.Some? ==> IsSubsequence(r, data.value)
    ensures forall i :: 0 <= i < |r| ==> MatchesSearch(r[i], term) && MatchesCarrier(r[i], selected)
    ensures data.Some? ==>
              forall i :: (0 <= i < |data.value| && MatchesSearch(data.value[i], term)
                           && MatchesCarrier(data.value[i], selected)) ==> data.value[i] in r
    ensures data.Some? ==>
              forall x :: multiset(r)[x] ==
                            if MatchesSearch(x, term) && MatchesCarrier(x, selected) then multiset(data.value)[x] else 0
  {
    if data.None? then [] else Filter((m: MicDta) => Shown(m, term, selected), data.value)
  }

  /** The rows of a tab. */
  function TabRows(tab: int, all: Query, normal: Query, lastre: Query, term: string, selected: string)
    : seq<MicDta>
  {
    FilterMicDtas(CurrentQuery(tab, all, normal, lastre).data, term, selected)
  }

  /** A document without a CRT number is found only by its own number or
      its carrier's name. */
  lemma NoCrtNumberNeverMatches(m: MicDta, term: string)
    requires m.crtNumero == ""
    ensures MatchesSearch(m, term) <==>
              Contains(Lower(m.numero), Lower(term)) || Contains(Lower(m.transportadoraNome), Lower(term))
  {
  }

  /** With an empty search box and no carrier chosen, the whole dataset is
      listed. */
  lemma NoFilterKeepsAll(data: seq<MicDta>)
    ensures FilterMicDtas(Some(data), "", "") == data
  {
    assert Lower("") == "";
    forall i | 0 <= i < |data| ensures Shown(data[i], "", "") {
      ContainsEmpty(Lower(data[i].numero));
    }
    FilterKeepsAll((m: MicDta) => Shown(m, "", ""), data);
  }

  /** Choosing the carrier with id `id` lists exactly that carrier's
      documents among those the search alone lists. */
  lemma CarrierFilterSelects(data: seq<MicDta>, term: string, id: nat)
    ensures forall m :: m in FilterMicDtas(Some(data), term, DecimalText(id)) <==>
                        m in FilterMicDtas(Some(data), term, "") && m.transportadoraId == id
  {
    assert "" != DecimalText(id) by {
      ParseDecimalText(id);
    }
    forall m: MicDta ensures m in FilterMicDtas(Some(data), term, DecimalText(id)) <==>
                          m in FilterMicDtas(Some(data), term, "") && m.transportadoraId == id
    {
      if DecimalText(m.transportadoraId) == DecimalText(id) {
        DecimalTextInjective(m.transportadoraId, id);
      }
      FilterMembers((m: MicDta) => Shown(m, term, DecimalText(id)), data, m);
      FilterMembers((m: MicDta) => Shown(m, term, ""), data, m);
    }
  }

  predicate IsNormal(m: MicDta) { m.tipo == NormalTipo }

  /** When the NORMAL query returns the NORMAL documents of the full query,
      the NORMAL tab lists exactly the NORMAL rows of the all tab, in the
      same order. */
  lemma NormalTabAgreesWithAllTab(all: seq<MicDta>, normal: Query, lastre: Query, loading: bool,
                                  term: string, selected: string)
    requires normal.data == Some(Filter(IsNormal, all))
    ensures TabRows(NormalTab, Query(Some(all), loading), normal, lastre, term, selected)
            == Filter(IsNormal, TabRows(0, Query(Some(all), loading), normal, lastre, term, selected))
  {
    FilterCommute((m: MicDta) => Shown(m, term, selected), IsNormal, all);
  }
}
