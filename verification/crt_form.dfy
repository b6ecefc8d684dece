/** `src/pages/CRT/CRTForm.js`: the new-CRT dialog. The carrier selector
    fills in the origin, the form validates its fields, and the submit
    handler refuses a route no licence covers before it sends exactly one
    create request. */
module CrtForm {
  import opened Wrappers
  import opened Text
  import opened Domain
  import opened Licensing

  /** The submitted form values. `transportadoraId` is the selector's text
      value (the carrier id as a decimal string, "" when none is chosen);
      `quantidade` is the whole number typed in the quantity field. */
  datatype CrtFormData = CrtFormData(
    transportadoraId: string,
    quantidade: int,
    faturaComercial: string,
    exportador: string,
    importador: string,
    paisOrigemCodigo: string,
    paisDestinoCodigo: string)

  /** The body of the create request: the form values with the carrier id
      converted by `parseInt` (`None` stands for NaN). */
  datatype CrtRequest = CrtRequest(
    transportadoraId: Option<int>,
    quantidade: int,
    faturaComercial: string,
    exportador: string,
    importador: string,
    paisOrigemCodigo: string,
    paisDestinoCodigo: string)

  datatype CrtField =
    | CarrierField | QuantityField | InvoiceField | ExporterField
    | ImporterField | OriginField | DestinationField

  datatype CrtOutcome =
    | Invalid(fields: set<CrtField>)   // validation messages, nothing sent
    | NoLicense                        // error toast, nothing sent
    | Create(request: CrtRequest)      // one create request

  /** The carrier the selector currently names. */
  function SelectedCarrier(carriers: Option<seq<Carrier>>, form: CrtFormData): Option<Carrier> {
    FindCarrier(carriers, form.transportadoraId)
  }

  /** The effect that copies the selected carrier's home country into the
      origin field. */
  function AutoFillOrigin(carriers: Option<seq<Carrier>>, form: CrtFormData): (r: CrtFormData)
    ensures SelectedCarrier(carriers, form).Some? ==>
              r == form.(paisOrigemCodigo := SelectedCarrier(carriers, form).value.pais)
    ensures SelectedCarrier(carriers, form).None? ==> r == form
    ensures SelectedCarrier(carriers, r) == SelectedCarrier(carriers, form)
  {
    match SelectedCarrier(carriers, form)
    case Some(c) => form.(paisOrigemCodigo := c.pais)
    case None => form
  }

  /** After the origin is filled in, the submit gate reduces to "some licence
      names the destination"; running the effect again changes nothing. */
  lemma AutoFillOriginGate(carriers: Option<seq<Carrier>>, form: CrtFormData)
    ensures AutoFillOrigin(carriers, AutoFillOrigin(carriers, form)) == AutoFillOrigin(carriers, form)
    ensures var f := AutoFillOrigin(carriers, form);
            SelectedCarrier(carriers, form).Some? ==>
              (HasLicenseBetweenCountries(SelectedCarrier(carriers, f), f.paisOrigemCodigo, f.paisDestinoCodigo)
               <==> form.paisDestinoCodigo in Destinations(SelectedCarrier(carriers, form).value.paisesDestino))
  {
    if SelectedCarrier(carriers, form).Some? {
      HomeOriginEligibility(SelectedCarrier(carriers, form).value, form.paisDestinoCodigo);
    }
  }

  /** The fields whose `register` rules fail: every field is required and
      the quantity must lie in 1..100. */
  function Validate(form: CrtFormData): (errors: set<CrtField>)
    ensures errors == {} <==>
              && form.transportadoraId != "" && QuantityInRange(form.quantidade)
              && form.faturaComercial != "" && form.exportador != "" && form.importador != ""
              && form.paisOrigemCodigo != "" && form.paisDestinoCodigo != ""
    ensures QuantityField in errors <==> !QuantityInRange(form.quantidade)
  {
    (if form.transportadoraId == "" then {CarrierField} else {})
    + (if !QuantityInRange(form.quantidade) then {QuantityField} else {})
    + (if form.faturaComercial == "" then {InvoiceField} else {})
    + (if form.exportador == "" then {ExporterField} else {})
    + (if form.importador == "" then {ImporterField} else {})
    + (if form.paisOrigemCodigo == "" then {OriginField} else {})
    + (if form.paisDestinoCodigo == "" then {DestinationField} else {})
  }

  /** `onSubmit(data)`: the licence gate, then the create request. */
  function OnSubmit(carriers: Option<seq<Carrier>>, form: CrtFormData): (r: CrtOutcome)
    ensures !r.Invalid?
    ensures r.Create? <==>
              HasLicenseBetweenCountries(SelectedCarrier(carriers, form), form.paisOrigemCodigo, form.paisDestinoCodigo)
    ensures r.Create? ==>
              && SelectedCarrier(carriers, form).Some?
              && r.request.transportadoraId == Some(SelectedCarrier(carriers, form).value.id as int)
              && r.request.quantidade == form.quantidade
              && r.request.faturaComercial == form.faturaComercial
              && r.request.exportador == form.exportador
              && r.request.importador == form.importador
              && r.request.paisOrigemCodigo == form.paisOrigemCodigo
              && r.request.paisDestinoCodigo == form.paisDestinoCodigo
    ensures r.Create? ==>
              var home := SelectedCarrier(carriers, form).value.pais;
              home == r.request.paisOrigemCodigo || home == r.request.paisDestinoCodigo
  {
    var carrier := SelectedCarrier(carriers, form);
    if !HasLicenseBetweenCountries(carrier, form.paisOrigemCodigo, form.paisDestinoCodigo) then
      NoLicense
    else
      ParseDecimalText(carrier.value.id);
      Create(CrtRequest(
        ParseInt(form.transportadoraId),
        form.quantidade,
        form.faturaComercial,
        form.exportador,
        form.importador,
        form.paisOrigemCodigo,
        form.paisDestinoCodigo))
  }

  /** `handleSubmit(onSubmit)`: validation first, then the handler. */
  function HandleSubmit(carriers: Option<seq<Carrier>>, form: CrtFormData): (r: CrtOutcome)
    ensures r.Invalid? <==> Validate(form) != {}
    ensures r.Invalid? ==> r.fields == Validate(form)
    ensures r.NoLicense? <==>
              && Validate(form) == {}
              && !HasLicenseBetweenCountries(SelectedCarrier(carriers, form), form.paisOrigemCodigo, form.paisDestinoCodigo)
    ensures r.Create? ==> QuantityInRange(r.request.quantidade) && r.request.transportadoraId.Some?
    ensures r.Create? ==> r == OnSubmit(carriers, form)
  {
    var errors := Validate(form);
    if errors != {} then Invalid(errors) else OnSubmit(carriers, form)
  }
}
