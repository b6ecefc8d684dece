/** The route-licence rules shared by the CRT and MIC/DTA issuance forms
    (`src/pages/CRT/CRTForm.js` and `src/pages/MicDta/MicDtaForm.js` define
    the same two helpers): which (origin, destination) pairs a carrier may
    issue documents for, and which countries the route selectors offer. */
module Licensing {
  import opened Wrappers
  import opened Seqs
  import opened Domain

  /** The test `.some(ld => ...)` applies to one licence `ld` of a carrier
      registered in `home`. */
  predicate LinksRoute(home: string, ld: License, origem: string, destino: string) {
    || (ld.paisDestino == destino && home == origem)
    || (ld.paisDestino == origem && home == destino)
  }

  /** `hasLicenseBetweenCountries(transportadora, origem, destino)`: some
      licence joins the home country to the other endpoint, read in either
      direction. Stated independently of the code as: the endpoint set
      {origem, destino} is the set {home, licence destination} of a licence. */
  function HasLicenseBetweenCountries(carrier: Option<Carrier>, origem: string, destino: string): (b: bool)
    ensures carrier.None? ==> !b
    ensures b ==> carrier.value.pais == origem || carrier.value.pais == destino
    ensures b <==> && carrier.Some?
                   && exists i :: 0 <= i < |carrier.value.paisesDestino|
                        && {origem, destino} == {carrier.value.pais, carrier.value.paisesDestino[i].paisDestino}
  {
    if carrier.None? then false
    else
      var c := carrier.value;
      var b := Any((ld: License) => LinksRoute(c.pais, ld, origem, destino), c.paisesDestino);
      assert forall i :: 0 <= i < |c.paisesDestino| ==>
        (LinksRoute(c.pais, c.paisesDestino[i], origem, destino) <==>
          {origem, destino} == {c.pais, c.paisesDestino[i].paisDestino}) by {
        forall i | 0 <= i < |c.paisesDestino|
          ensures LinksRoute(c.pais, c.paisesDestino[i], origem, destino)
                  <==> {origem, destino} == {c.pais, c.paisesDestino[i].paisDestino}
        {
          SetPairEquality(origem, destino, c.pais, c.paisesDestino[i].paisDestino);
        }
      }
      b
  }

  /** Two two-element sets are equal exactly when their members match up
      directly or crosswise. */
  lemma SetPairEquality(a: string, b: string, x: string, y: string)
    ensures {a, b} == {x, y} <==> (a == x && b == y) || (a == y && b == x)
  {
    if {a, b} == {x, y} {
      assert a in {x, y} && b in {x, y} && x in {a, b} && y in {a, b};
    }
  }

  /** Swapping origin and destination never changes eligibility. */
  lemma EligibilitySymmetric(carrier: Option<Carrier>, origem: string, destino: string)
    ensures HasLicenseBetweenCountries(carrier, origem, destino)
         == HasLicenseBetweenCountries(carrier, destino, origem)
  {
    assert {origem, destino} == {destino, origem};
  }

  /** With the home country as origin (the CRT form's default), a route is
      eligible exactly when some licence names the destination. */
  lemma HomeOriginEligibility(carrier: Carrier, destino: string)
    ensures HasLicenseBetweenCountries(Some(carrier), carrier.pais, destino)
        <==> destino in Destinations(carrier.paisesDestino)
  {
    var ds := Destinations(carrier.paisesDestino);
    if destino in ds {
      var i :| 0 <= i < |ds| && ds[i] == destino;
      assert {carrier.pais, destino} == {carrier.pais, carrier.paisesDestino[i].paisDestino};
    }
    if HasLicenseBetweenCountries(Some(carrier), carrier.pais, destino) {
      var i :| 0 <= i < |carrier.paisesDestino|
               && {carrier.pais, destino} == {carrier.pais, carrier.paisesDestino[i].paisDestino};
      SetPairEquality(carrier.pais, destino, carrier.pais, carrier.paisesDestino[i].paisDestino);
      assert ds[i] == destino;
    }
  }

  /** One option of a country selector. */
  datatype CountryOption = CountryOption(code: string, name: string)

  function CountryCode(c: Country): string { c.code }



  /** `countries?.data?.find(c => c.code === code)?.name || code`: the name of
      the first country with that code, or the code itself when there is no
      such country or its name is empty. */
  function CountryName(countries: Option<seq<Country>>, code: string): (name: string)
    ensures countries.None? ==> name == code
    ensures countries.Some? && (forall i :: 0 <= i < |countries.value| ==> countries.value[i].code != code)
            ==> name == code
    ensures name == code
            || exists i :: && 0 <= i < |countries.value|
                           && countries.value[i].code == code
                           && countries.value[i].name == name != ""
                           && forall j :: 0 <= j < i ==> countries.value[j].code != code
    ensures countries.Some? ==>
              forall i :: && 0 <= i < |countries.value|
                          && countries.value[i].code == code
                          && (forall j :: 0 <= j < i ==> countries.value[j].code != code)
                          ==> name == (if countries.value[i].name == "" then code else countries.value[i].name)
  {
    if countries.None? then code
    else
      var i := KeyIndex(countries.value, CountryCode, code);
      if i == -1 || countries.value[i].name == "" then code else countries.value[i].name
  }

  /** `transportadora.paisesDestino?.map(dest => dest.paisDestino) || []`. */
  function Destinations(lics: seq<License>): (ds: seq<string>)
    ensures |ds| == |lics|
    ensures forall i :: 0 <= i < |lics| ==> ds[i] == lics[i].paisDestino
  {
    seq(|lics|, i requires 0 <= i < |lics| => lics[i].paisDestino)
  }

  /** The codes of a list of options, in order. */
  function Codes(opts: seq<CountryOption>): (cs: seq<string>)
    ensures |cs| == |opts|
    ensures forall i :: 0 <= i < |opts| ==> cs[i] == opts[i].code
  {
    seq(|opts|, i requires 0 <= i < |opts| => opts[i].code)
  }

  /** `Array.from(new Set([...destinos, paisRegistro]))`. */
  function UniqueCodes(c: Carrier): (codes: seq<string>)
    ensures IsSubsequence(codes, Destinations(c.paisesDestino) + [c.pais])
    ensures forall i, j :: 0 <= i < j < |codes| ==> codes[i] != codes[j]
    ensures forall x :: x in codes <==> x == c.pais || x in Destinations(c.paisesDestino)
    ensures var all := Destinations(c.paisesDestino) + [c.pais];
            forall i, j :: 0 <= i < j < |codes| ==> KeyIndex(all, Id, codes[i]) < KeyIndex(all, Id, codes[j])
  {
    var all := Destinations(c.paisesDestino) + [c.pais];
    assert forall x :: x in all <==> x == c.pais || x in Destinations(c.paisesDestino);
    Dedupe(all)
  }

  /** `getAllowedCountries(transportadora, countries)`. */
  function GetAllowedCountries(carrier: Option<Carrier>, countries: Option<seq<Country>>): (r: seq<CountryOption>)
    ensures carrier.None? ==> r == []
    ensures forall i, j :: 0 <= i < j < |r| ==> r[i].code != r[j].code
    ensures carrier.Some? ==>
              forall x :: x in Codes(r) <==>
                x == carrier.value.pais || x in Destinations(carrier.value.paisesDestino)
    ensures carrier.Some? ==>
              IsSubsequence(Codes(r), Destinations(carrier.value.paisesDestino) + [carrier.value.pais])
    ensures carrier.Some? ==>
              var all := Destinations(carrier.value.paisesDestino) + [carrier.value.pais];
              forall i, j :: 0 <= i < j < |r| ==> KeyIndex(all, Id, r[i].code) < KeyIndex(all, Id, r[j].code)
    ensures forall i :: 0 <= i < |r| ==> r[i].name == CountryName(countries, r[i].code)
  {
    if carrier.None? then []
    else
      var codes := UniqueCodes(carrier.value);
      var r := seq(|codes|, i requires 0 <= i < |codes| => CountryOption(codes[i], CountryName(countries, codes[i])));
      assert Codes(r) == codes;
      r
  }

  /** `allowedCountries.filter(c => c.code !== paisOrigemSelecionado)`. */
  function AllowedDestinos(allowed: seq<CountryOption>, origem: string): (r: seq<CountryOption>)
    ensures IsSubsequence(r, allowed)
    ensures forall i :: 0 <= i < |r| ==> r[i].code != origem
    ensures forall i :: 0 <= i < |allowed| && allowed[i].code != origem ==> allowed[i] in r
  {
    Filter((o: CountryOption) => o.code != origem, allowed)
  }

  /** A code other than the origin survives the destination filter. */
  lemma OfferedAsDestination(allowed: seq<CountryOption>, origem: string, code: string)
    requires code in Codes(allowed) && code != origem
    ensures code in Codes(AllowedDestinos(allowed, origem))
  {
    var opts := AllowedDestinos(allowed, origem);
    var k :| 0 <= k < |allowed| && Codes(allowed)[k] == code;
    var m :| 0 <= m < |opts| && opts[m] == allowed[k];
    assert Codes(opts)[m] == code;
  }

  /** Both endpoints of an eligible route are among the carrier's allowed
      countries, and once the origin is chosen a distinct eligible
      destination is still offered. */
  lemma EligibleRouteIsOffered(carrier: Carrier, countries: Option<seq<Country>>, origem: string, destino: string)
    requires HasLicenseBetweenCountries(Some(carrier), origem, destino)
    ensures origem in Codes(GetAllowedCountries(Some(carrier), countries))
    ensures destino in Codes(GetAllowedCountries(Some(carrier), countries))
    ensures origem != destino ==>
              destino in Codes(AllowedDestinos(GetAllowedCountries(Some(carrier), countries), origem))
  {
    var i :| 0 <= i < |carrier.paisesDestino|
             && {origem, destino} == {carrier.pais, carrier.paisesDestino[i].paisDestino};
    var ds := Destinations(carrier.paisesDestino);
    assert ds[i] == carrier.paisesDestino[i].paisDestino;
    SetPairEquality(origem, destino, carrier.pais, ds[i]);
    assert origem in Codes(GetAllowedCountries(Some(carrier), countries));
    assert destino in Codes(GetAllowedCountries(Some(carrier), countries));
    if origem != destino {
      OfferedAsDestination(GetAllowedCountries(Some(carrier), countries), origem, destino);
    }
  }
}
