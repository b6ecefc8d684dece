/** `src/pages/MicDta/MicDtaForm.js`: the new-MIC/DTA dialog. A NORMAL
    document inherits carrier and route from a CRT; a LASTRE document (an
    empty truck) names them directly. The submit handler applies the
    route-licence gate to both kinds before it builds a kind-specific
    request. */
module MicDtaForm {
  import opened Wrappers
  import opened Text
  import opened Seqs
  import opened Domain
  import opened Licensing

  datatype MicDtaKind = Normal | Lastre

  /** The `tipo` string sent for a kind. */
  function TipoText(kind: MicDtaKind): (t: string)
    ensures t == NormalTipo || t == LastreTipo
    ensures t == NormalTipo <==> kind == Normal
  {
    match kind
    case Normal => NormalTipo
    case Lastre => LastreTipo
  }

  /** The form values; the ids are the selectors' text values. */
  datatype MicDtaFormData = MicDtaFormData(
    crtId: string,
    transportadoraId: string,
    paisOrigemCodigo: string,
    paisDestinoCodigo: string,
    quantidade: int)

  /** The body of the create request. A NORMAL request names only its CRT;
      a LASTRE request names carrier and route and no CRT. Ids pass through
      `parseInt` (`None` stands for NaN). */
  datatype MicDtaRequest =
    | NormalRequest(quantidade: int, crtId: Option<int>)
    | LastreRequest(quantidade: int, transportadoraId: Option<int>,
                    paisOrigemCodigo: string, paisDestinoCodigo: string)
  {
    function Tipo(): string {
      if NormalRequest? then NormalTipo else LastreTipo
    }
  }

  datatype MicDtaField = CrtField | CarrierField | OriginField | DestinationField | QuantityField

  datatype MicDtaOutcome =
    | Invalid(fields: set<MicDtaField>)
    | NoLicense
    | Create(request: MicDtaRequest)

  function SelectedCrt(crts: Option<seq<Crt>>, form: MicDtaFormData): Option<Crt> {
    FindCrt(crts, form.crtId)
  }

  function SelectedCarrier(carriers: Option<seq<Carrier>>, form: MicDtaFormData): Option<Carrier> {
    FindCarrier(carriers, form.transportadoraId)
  }

  /** The effect that, in NORMAL mode, copies the selected CRT's carrier id
      and route into the form. */
  function AutoFill(kind: MicDtaKind, crts: Option<seq<Crt>>, form: MicDtaFormData): (r: MicDtaFormData)
    ensures r.crtId == form.crtId && r.quantidade == form.quantidade
    ensures kind == Normal && SelectedCrt(crts, form).Some? ==>
              var crt := SelectedCrt(crts, form).value;
              && ParseInt(r.transportadoraId) == Some(crt.transportadoraId as int)
              && r.paisOrigemCodigo == crt.paisOrigemCodigo
              && r.paisDestinoCodigo == crt.paisDestinoCodigo
    ensures kind == Lastre || SelectedCrt(crts, form).None? ==> r == form
  {
    match SelectedCrt(crts, form)
    case Some(crt) =>
      if kind == Normal then
        ParseDecimalText(crt.transportadoraId);
        form.(transportadoraId := DecimalText(crt.transportadoraId),
              paisOrigemCodigo := crt.paisOrigemCodigo,
              paisDestinoCodigo := crt.paisDestinoCodigo)
      else form
    case None => form
  }

  /** Re-running the effect after it has fired changes nothing. */
  lemma AutoFillIdempotent(kind: MicDtaKind, crts: Option<seq<Crt>>, form: MicDtaFormData)
    ensures AutoFill(kind, crts, AutoFill(kind, crts, form)) == AutoFill(kind, crts, form)
  {
  }

  /** The fields whose rules fail. NORMAL shows the CRT selector, and the
      route selectors once a CRT is chosen; LASTRE shows carrier and route.
      Both require a quantity in 1..100. */
  function Validate(kind: MicDtaKind, crts: Option<seq<Crt>>, form: MicDtaFormData): (errors: set<MicDtaField>)
    ensures QuantityField in errors <==> !QuantityInRange(form.quantidade)
    ensures CrtField in errors <==> kind == Normal && form.crtId == ""
    ensures CarrierField in errors <==> kind == Lastre && form.transportadoraId == ""
    ensures OriginField in errors <==>
              (kind == Lastre || SelectedCrt(crts, form).Some?) && form.paisOrigemCodigo == ""
    ensures DestinationField in errors <==>
              (kind == Lastre || SelectedCrt(crts, form).Some?) && form.paisDestinoCodigo == ""
    ensures kind == Normal ==>
              (errors == {} <==> && QuantityInRange(form.quantidade) && form.crtId != ""
                                 && (SelectedCrt(crts, form).Some? ==>
                                       form.paisOrigemCodigo != "" && form.paisDestinoCodigo != ""))
    ensures kind == Lastre ==>
              (errors == {} <==> && QuantityInRange(form.quantidade) && form.transportadoraId != ""
                                 && form.paisOrigemCodigo != "" && form.paisDestinoCodigo != "")
  {
    var routeShown := kind == Lastre || SelectedCrt(crts, form).Some?;
    (if !QuantityInRange(form.quantidade) then {QuantityField} else {})
    + (if kind == Normal && form.crtId == "" then {CrtField} else {})
    + (if kind == Lastre && form.transportadoraId == "" then {CarrierField} else {})
    + (if routeShown && form.paisOrigemCodigo == "" then {OriginField} else {})
    + (if routeShown && form.paisDestinoCodigo == "" then {DestinationField} else {})
  }

  /** A NORMAL form whose CRT has been picked and copied in by the effect is
      valid exactly when its quantity is in range, provided that CRT carries
      both route countries; without a picked CRT only the CRT selector and
      the quantity are checked. */
  lemma NormalValidity(crts: Option<seq<Crt>>, form: MicDtaFormData)
    ensures SelectedCrt(crts, form).None? ==>
              Validate(Normal, crts, form) ==
                (if !QuantityInRange(form.quantidade) then {QuantityField} else {})
                + (if form.crtId == "" then {CrtField} else {})
    ensures var crt := SelectedCrt(crts, form);
            crt.Some? && crt.value.paisOrigemCodigo != "" && crt.value.paisDestinoCodigo != "" ==>
              (Validate(Normal, crts, AutoFill(Normal, crts, form)) == {} <==> QuantityInRange(form.quantidade))
  {
    var filled := AutoFill(Normal, crts, form);
    assert SelectedCrt(crts, filled) == SelectedCrt(crts, form);
    if SelectedCrt(crts, form).Some? {
      assert form.crtId == DecimalText(SelectedCrt(crts, form).value.id);
    }
  }

  /** `onSubmit(data)`: the licence gate, applied to both kinds, then the
      kind-specific request. */
  function OnSubmit(kind: MicDtaKind, carriers: Option<seq<Carrier>>, form: MicDtaFormData): (r: MicDtaOutcome)
    ensures !r.Invalid?
    ensures r.NoLicense? <==>
              !HasLicenseBetweenCountries(SelectedCarrier(carriers, form), form.paisOrigemCodigo, form.paisDestinoCodigo)
    ensures r.Create? ==> r.request.Tipo() == TipoText(kind) && r.request.quantidade == form.quantidade
    ensures r.Create? ==> (r.request.NormalRequest? <==> kind == Normal)
    ensures r.Create? && kind == Normal ==> r.request.crtId == ParseInt(form.crtId)
    ensures r.Create? && kind == Lastre ==>
              && SelectedCarrier(carriers, form).Some?
              && r.request.transportadoraId == Some(SelectedCarrier(carriers, form).value.id as int)
              && r.request.paisOrigemCodigo == form.paisOrigemCodigo
              && r.request.paisDestinoCodigo == form.paisDestinoCodigo
  {
    var carrier := SelectedCarrier(carriers, form);
    if !HasLicenseBetweenCountries(carrier, form.paisOrigemCodigo, form.paisDestinoCodigo) then
      NoLicense
    else if kind == Normal then
      Create(NormalRequest(form.quantidade, ParseInt(form.crtId)))
    else
      ParseDecimalText(carrier.value.id);
      Create(LastreRequest(form.quantidade, ParseInt(form.transportadoraId),
                           form.paisOrigemCodigo, form.paisDestinoCodigo))
  }

  /** `handleSubmit(onSubmit)`: validation first, then the handler. */
  function HandleSubmit(kind: MicDtaKind, crts: Option<seq<Crt>>, carriers: Option<seq<Carrier>>,
                        form: MicDtaFormData): (r: MicDtaOutcome)
    ensures r.Invalid? <==> Validate(kind, crts, form) != {}
    ensures r.Create? ==> QuantityInRange(r.request.quantidade)
    ensures r.Create? ==>
              HasLicenseBetweenCountries(SelectedCarrier(carriers, form), form.paisOrigemCodigo, form.paisDestinoCodigo)
    ensures !r.Invalid? ==> r == OnSubmit(kind, carriers, form)
  {
    var errors := Validate(kind, crts, form);
    if errors != {} then Invalid(errors) else OnSubmit(kind, carriers, form)
  }

  /** A NORMAL document for a CRT: once the effect has copied the CRT into the
      form, the submission goes through exactly when the CRT's own carrier
      holds a licence covering the CRT's route, and the request names that
      CRT by its id. */
  lemma NormalSubmitFollowsCrt(crts: Option<seq<Crt>>, carriers: Option<seq<Carrier>>, form: MicDtaFormData)
    requires SelectedCrt(crts, form).Some?
    ensures var crt := SelectedCrt(crts, form).value;
            var filled := AutoFill(Normal, crts, form);
            var r := OnSubmit(Normal, carriers, filled);
            && (r.Create? <==> HasLicenseBetweenCountries(FindCarrier(carriers, DecimalText(crt.transportadoraId)),
                                                         crt.paisOrigemCodigo, crt.paisDestinoCodigo))
            && (r.Create? ==> r.request == NormalRequest(form.quantidade, Some(crt.id as int)))
  {
    var crt := SelectedCrt(crts, form).value;
    ParseDecimalText(crt.id);
  }

  /** `allowedDestinos` in LASTRE mode: the selected carrier's allowed
      countries other than the chosen origin. */
  function LastreDestinationOptions(carriers: Option<seq<Carrier>>, countries: Option<seq<Country>>,
                                    form: MicDtaFormData): (r: seq<CountryOption>)
    ensures forall i :: 0 <= i < |r| ==> r[i].code != form.paisOrigemCodigo
    ensures IsSubsequence(r, GetAllowedCountries(SelectedCarrier(carriers, form), countries))
    ensures SelectedCarrier(carriers, form).None? ==> r == []
    ensures SelectedCarrier(carriers, form).Some? ==>
              forall d :: (d != form.paisOrigemCodigo &&
                           HasLicenseBetweenCountries(SelectedCarrier(carriers, form), form.paisOrigemCodigo, d))
                          ==> d in Codes(r)
  {
    var carrier := SelectedCarrier(carriers, form);
    var r := AllowedDestinos(GetAllowedCountries(carrier, countries), form.paisOrigemCodigo);
    if carrier.None? then
      SubsequenceMembers(r, []);
      r
    else
      assert forall d :: (d != form.paisOrigemCodigo &&
                          HasLicenseBetweenCountries(carrier, form.paisOrigemCodigo, d)) ==> d in Codes(r) by {
        forall d | d != form.paisOrigemCodigo && HasLicenseBetweenCountries(carrier, form.paisOrigemCodigo, d)
          ensures d in Codes(r)
        {
          EligibleRouteIsOffered(carrier.value, countries, form.paisOrigemCodigo, d);
        }
      }
      r
  }
}
