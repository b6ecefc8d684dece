/** `src/pages/CRT/CRTList.js`: the CRT table's search box and carrier
    filter. */
module CrtList {
  import opened Wrappers
  import opened Seqs
  import opened Text
  import opened Domain

  /** The search test: the lower-cased term occurs in the lower-cased
      number, invoice, exporter, importer or carrier name. */
  predicate MatchesSearch(c: Crt, term: string) {
    var t := Lower(term);
    || Contains(Lower(c.numero), t)
    || Contains(Lower(c.faturaComercial), t)
    || Contains(Lower(c.exportador), t)
    || Contains(Lower(c.importador), t)
    || Contains(Lower(c.transportadoraNome), t)
  }

  /** The carrier filter: `selected` is the selector's value, "" for all
      carriers, otherwise a carrier id as text. */
  predicate MatchesCarrier(c: Crt, selected: string) {
    selected == "" || DecimalText(c.transportadoraId) == selected
  }

  predicate Shown(c: Crt, term: string, selected: string) {
    MatchesSearch(c, term) && MatchesCarrier(c, selected)
  }

  /** `filteredCrts`: the CRTs passing both tests, in their order. */
  function FilterCrts(data: Option<seq<Crt>>, term: string, selected: string): (r: seq<Crt>)
    ensures data.None? ==> r == []
    ensures data.Some? ==> IsSubsequence(r, data.value)
    ensures forall i :: 0 <= i < |r| ==> MatchesSearch(r[i], term) && MatchesCarrier(r[i], selected)
    ensures data.Some? ==>
              forall i :: (0 <= i < |data.value| && MatchesSearch(data.value[i], term)
                           && MatchesCarrier(data.value[i], selected)) ==> data.value[i] in r
    ensures data.Some? ==>
              forall x :: multiset(r)[x] ==
                            if MatchesSearch(x, term) && MatchesCarrier(x, selected) then multiset(data.value)[x] else 0
  {
    if data.None? then [] else Filter((c: Crt) => Shown(c, term, selected), data.value)
  }

  /** With an empty search box and no carrier chosen, every CRT is listed. */
  lemma NoFilterKeepsAll(data: seq<Crt>)
    ensures FilterCrts(Some(data), "", "") == data
  {
    assert Lower("") == "";
    forall i | 0 <= i < |data| ensures Shown(data[i], "", "") {
      ContainsEmpty(Lower(data[i].numero));
    }
    FilterKeepsAll((c: Crt) => Shown(c, "", ""), data);
  }

  /** Choosing the carrier with id `id` lists exactly that carrier's CRTs
      among those the search alone lists. */
  lemma CarrierFilterSelects(data: seq<Crt>, term: string, id: nat)
    ensures forall c :: c in FilterCrts(Some(data), term, DecimalText(id)) <==>
                        c in FilterCrts(Some(data), term, "") && c.transportadoraId == id
  {
    assert "" != DecimalText(id) by {
      ParseDecimalText(id);
    }
    forall c: Crt ensures c in FilterCrts(Some(data), term, DecimalText(id)) <==>
                          c in FilterCrts(Some(data), term, "") && c.transportadoraId == id
    {
      if DecimalText(c.transportadoraId) == DecimalText(id) {
        DecimalTextInjective(c.transportadoraId, id);
      }
      FilterMembers((c: Crt) => Shown(c, term, DecimalText(id)), data, c);
      FilterMembers((c: Crt) => Shown(c, term, ""), data, c);
    }
  }

  /** The search ignores the case of the term: typing it upper- or
      lower-case lists the same CRTs. */
  lemma SearchIgnoresCase(data: seq<Crt>, term: string, selected: string)
    ensures FilterCrts(Some(data), Lower(term), selected) == FilterCrts(Some(data), term, selected)
  {
    LowerIdempotent(term);
    FilterCongruent((c: Crt) => Shown(c, Lower(term), selected), (c: Crt) => Shown(c, term, selected), data);
  }
}
