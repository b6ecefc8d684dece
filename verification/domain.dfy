/** The records the front end receives from the API: carriers
    (`transportadoras`) with their licences (`paisesDestino`), CRTs and
    MIC/DTAs. An absent string field is represented by "" (both are falsy
    in JavaScript); an absent `paisesDestino` by the empty sequence. */
module Domain {
  import opened Wrappers
  import opened Text
  import Seqs

  /** The home country code that switches the Brazilian display and edit rules. */
  const Brazil := "BR"

  /** The `tipo` strings of a MIC/DTA. */
  const NormalTipo := "NORMAL"
  const LastreTipo := "LASTRE"

  /** The bounds the issuance forms put on the number of documents requested
      at once. */
  const MinQuantity := 1
  const MaxQuantity := 100

  predicate QuantityInRange(q: int) {
    MinQuantity <= q <= MaxQuantity
  }

  /** One licence: destination country, licence code, standing-eligibility
      number and expiry date as typed (DD/MM/YYYY). */
  datatype License = License(
    paisDestino: string,
    licenca: string,
    idoneidade: string,
    vencimentoLicenca: string)

  datatype Carrier = Carrier(
    id: nat,
    nome: string,
    pais: string,
    numeroRegistro: string,
    numeroInicialCRT: int,
    numeroInicialMicDta: int,
    paisesDestino: seq<License>)

  datatype Country = Country(code: string, name: string)

  /** A CRT as listed; `createdAt` is the creation instant as a timestamp. */
  datatype Crt = Crt(
    id: nat,
    numero: string,
    faturaComercial: string,
    exportador: string,
    importador: string,
    transportadoraId: nat,
    transportadoraNome: string,
    paisOrigemCodigo: string,
    paisDestinoCodigo: string,
    createdAt: int)

  /** A MIC/DTA as listed; `crtNumero` is "" for a LASTRE document. */
  datatype MicDta = MicDta(
    id: nat,
    numero: string,
    tipo: string,
    transportadoraId: nat,
    transportadoraNome: string,
    crtNumero: string,
    createdAt: int)

  function CarrierIdText(c: Carrier): string { DecimalText(c.id) }
  function CrtIdText(c: Crt): string { DecimalText(c.id) }

  /** `items?.data?.find(x => x.id.toString() === idText)` over carriers. */
  function FindCarrier(carriers: Option<seq<Carrier>>, idText: string): (r: Option<Carrier>)
    ensures r.Some? ==> carriers.Some? && r.value in carriers.value && DecimalText(r.value.id) == idText
    ensures r.None? ==> carriers.None? || forall i :: 0 <= i < |carriers.value| ==> DecimalText(carriers.value[i].id) != idText
  {
    if carriers.None? then None
    else
      var i := Seqs.KeyIndex(carriers.value, CarrierIdText, idText);
      if i == -1 then None else Some(carriers.value[i])
  }

  /** `crts?.data?.find(c => c.id.toString() === idText)`. */
  function FindCrt(crts: Option<seq<Crt>>, idText: string): (r: Option<Crt>)
    ensures r.Some? ==> crts.Some? && r.value in crts.value && DecimalText(r.value.id) == idText
    ensures r.None? ==> crts.None? || forall i :: 0 <= i < |crts.value| ==> DecimalText(crts.value[i].id) != idText
  {
    if crts.None? then None
    else
      var i := Seqs.KeyIndex(crts.value, CrtIdText, idText);
      if i == -1 then None else Some(crts.value[i])
  }
}
