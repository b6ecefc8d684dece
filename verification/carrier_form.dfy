/** `src/pages/Transportadoras/TransportadoraForm.js`: the carrier
    create/edit dialog. It covers the edit reset that seeds the licence
    rows, the expiry-date validator and input mask of each row, and the
    submit handler that drops incomplete rows and refuses repeated expiry
    dates. */
module CarrierForm {
  import opened Wrappers
  import opened Seqs
  import opened Text
  import opened DateUtils
  import opened Domain

  /** The form values: the carrier's own fields and its licence rows. */
  datatype CarrierFormData = CarrierFormData(
    nome: string,
    pais: string,
    numeroRegistro: string,
    numeroInicialCRT: int,
    numeroInicialMicDta: int,
    paisesDestino: seq<License>)

  /** The row a new form starts with. */
  const BlankRow := License("", "", "", "")

  // ---------------------------------------------------------------------
  // Edit reset
  // ---------------------------------------------------------------------

  /** `x || 1` on a number: zero (and an absent value) become 1. */
  function OrOne(n: int): (r: int)
    ensures r != 0
    ensures n != 0 ==> r == n
  {
    if n == 0 then 1 else n
  }

  /** The licence rows the reset effect puts in the form. */
  function InitialRows(carrier: Option<Carrier>): (rows: seq<License>)
    ensures carrier.None? || |carrier.value.paisesDestino| == 0 ==> rows == [BlankRow]
    ensures carrier.Some? && |carrier.value.paisesDestino| > 0 && carrier.value.pais == Brazil ==>
              && IsSubsequence(rows, carrier.value.paisesDestino)
              && (forall i :: 0 <= i < |rows| ==> rows[i].paisDestino != Brazil)
              && (forall i :: 0 <= i < |carrier.value.paisesDestino| &&
                              carrier.value.paisesDestino[i].paisDestino != Brazil
                              ==> carrier.value.paisesDestino[i] in rows)
              && (forall l :: multiset(rows)[l] ==
                                if l.paisDestino != Brazil then multiset(carrier.value.paisesDestino)[l] else 0)
    ensures carrier.Some? && |carrier.value.paisesDestino| > 0 && carrier.value.pais != Brazil ==>
              rows == carrier.value.paisesDestino
  {
    if carrier.None? || |carrier.value.paisesDestino| == 0 then [BlankRow]
    else if carrier.value.pais == Brazil then
      Filter((d: License) => d.paisDestino != Brazil, carrier.value.paisesDestino)
    else
      carrier.value.paisesDestino
  }

  /** The values the reset effect loads when the dialog opens. */
  function EditDefaults(carrier: Option<Carrier>): (r: CarrierFormData)
    ensures r.paisesDestino == InitialRows(carrier)
    ensures carrier.None? ==> r == CarrierFormData("", "", "", 1, 1, [BlankRow])
    ensures carrier.Some? ==>
              && r.nome == carrier.value.nome
              && r.pais == carrier.value.pais
              && r.numeroRegistro == carrier.value.numeroRegistro
    ensures r.numeroInicialCRT != 0 && r.numeroInicialMicDta != 0
    ensures carrier.Some? && carrier.value.numeroInicialCRT != 0 ==>
              r.numeroInicialCRT == carrier.value.numeroInicialCRT
    ensures carrier.Some? && carrier.value.numeroInicialMicDta != 0 ==>
              r.numeroInicialMicDta == carrier.value.numeroInicialMicDta
  {
    match carrier
    case None => CarrierFormData("", "", "", 1, 1, InitialRows(carrier))
    case Some(c) =>
      CarrierFormData(c.nome, c.pais, c.numeroRegistro,
                      OrOne(c.numeroInicialCRT), OrOne(c.numeroInicialMicDta), InitialRows(carrier))
  }

  /** Editing a Brazilian carrier whose licences all point to Brazil leaves
      the form with no row at all (not even a blank one). */
  lemma BrazilianOnlyBrazilRowsLeavesNone(c: Carrier)
    requires c.pais == Brazil && |c.paisesDestino| > 0
    requires forall i :: 0 <= i < |c.paisesDestino| ==> c.paisesDestino[i].paisDestino == Brazil
    ensures EditDefaults(Some(c)).paisesDestino == []
  {
    var rows := InitialRows(Some(c));
    SubsequenceMembers(rows, c.paisesDestino);
  }

  // ---------------------------------------------------------------------
  // Field rules
  // ---------------------------------------------------------------------

  datatype HeaderField = NameField | CountryField | RegistrationField | InitialCrtField | InitialMicDtaField

  /** The carrier fields whose `register` rules fail: name, country and
      registration are required, and both initial numbers must be at
      least 1. */
  function HeaderErrors(form: CarrierFormData): (errors: set<HeaderField>)
    ensures errors == {} <==>
              && form.nome != "" && form.pais != "" && form.numeroRegistro != ""
              && form.numeroInicialCRT >= 1 && form.numeroInicialMicDta >= 1
  {
    (if form.nome == "" then {NameField} else {})
    + (if form.pais == "" then {CountryField} else {})
    + (if form.numeroRegistro == "" then {RegistrationField} else {})
    + (if form.numeroInicialCRT < 1 then {InitialCrtField} else {})
    + (if form.numeroInicialMicDta < 1 then {InitialMicDtaField} else {})
  }

  /** A new carrier's defaults pass the initial-number rules, and so do an
      edited carrier's whenever its stored numbers are not negative. */
  lemma DefaultInitialNumbersValid(carrier: Option<Carrier>)
    requires carrier.Some? ==> carrier.value.numeroInicialCRT >= 0 && carrier.value.numeroInicialMicDta >= 0
    ensures EditDefaults(carrier).numeroInicialCRT >= 1
    ensures EditDefaults(carrier).numeroInicialMicDta >= 1
  {
  }

  /** The message the expiry field shows (`Accepted` for none). */
  datatype ExpiryVerdict = Accepted | Required | BadFormat | BadDay | BadMonth | BadYear | BadDate

  /** The numeric checks of `validate`, in order, on the parsed day, month
      and year. */
  function CheckParsedDate(day: int, month: int, year: int): (r: ExpiryVerdict)
    ensures r == Accepted <==> IsCalendarDate(day, month, year) && 2000 <= year <= 2100
    ensures r != Required && r != BadFormat
  {
    if day < 1 || day > 31 then BadDay
    else if month < 1 || month > 12 then BadMonth
    else if year < 2000 || year > 2100 then BadYear
    else if !DateRoundTrips(day, month, year) then BadDate
    else Accepted
  }

  /** The expiry field's rules in the order they run: `required`, the
      DD/MM/YYYY `pattern`, then `validate` on the parts of `split('/')`. */
  function ValidateExpiry(v: string): (r: ExpiryVerdict)
    ensures r == Required <==> v == ""
    ensures r == BadFormat <==> v != "" && !IsDateBRShape(v)
    ensures IsDateBRShape(v) ==>
              r == CheckParsedDate(ShapeFields(v).day, ShapeFields(v).month, ShapeFields(v).year)
    ensures r == Accepted ==>
              && IsDateBRShape(v)
              && ParseDateBR(Some(v)) == Some(ShapeFields(v))
              && 2000 <= ShapeFields(v).year <= 2100
  {
    if v == "" then Required
    else if !IsDateBRShape(v) then BadFormat
    else
      var parts := Split(v, '/');
      var f := ShapeFields(v);
      ShapeIsFormatDMY(v);
      ParseDateBRParts(v, f.day, f.month, f.year);
      ParseFormatRoundTrip(f);
      if |parts| != 3 then BadFormat
      else
        match (ParseInt(parts[0]), ParseInt(parts[1]), ParseInt(parts[2]))
        case (Some(day), Some(month), Some(year)) => CheckParsedDate(day, month, year)
        case _ => BadFormat
  }

  /** The canonical text of a day is accepted exactly when the day exists
      and its year lies in 2000..2100: 31/04, 29/02 of a common year,
      month 00 or 13 and year 1999 are refused, 29/02/2024 is accepted. */
  lemma ValidateExpiryExactly(d: CalendarDate)
    requires 0 <= d.day < 100 && 0 <= d.month < 100 && 0 <= d.year < 10000
    ensures ValidateExpiry(FormatDMY(d)) == Accepted
        <==> IsCalendarDate(d.day, d.month, d.year) && 2000 <= d.year <= 2100
  {
    var s := FormatDMY(d);
    FormatDMYHasShape(d);
    assert ShapeFields(s) == d by {
      assert s[..2] == Pad2(d.day) && s[3..5] == Pad2(d.month) && s[6..] == Pad4(d.year);
    }
  }

  // ---------------------------------------------------------------------
  // Input mask
  // ---------------------------------------------------------------------

  function Min(a: int, b: int): int { if a < b then a else b }

  /** The mask applied to the digits already extracted from the input. */
  function MaskDigits(d: string): string {
    var v := if |d| >= 3 then d[..2] + "/" + d[2..] else d;
    if |v| >= 6 then v[..5] + "/" + v[5..Min(9, |v|)] else v
  }

  /** The three shapes the mask produces. */
  lemma MaskDigitsLayout(d: string)
    ensures |d| <= 2 ==> MaskDigits(d) == d
    ensures 3 <= |d| <= 4 ==> MaskDigits(d) == d[..2] + "/" + d[2..]
    ensures |d| >= 5 ==> MaskDigits(d) == d[..2] + "/" + d[2..4] + "/" + d[4..Min(8, |d|)]
  {
    if |d| >= 5 {
      var v := d[..2] + "/" + d[2..];
      assert v[..5] == d[..2] + "/" + d[2..4];
      assert v[5..Min(9, |v|)] == d[4..Min(8, |d|)];
    }
  }

  /** The digits of `a + "/" + b` are those of `a` followed by those of `b`. */
  lemma DigitsAroundSlash(a: string, b: string)
    ensures Digits(a + "/" + b) == Digits(a) + Digits(b)
  {
    DigitsConcat(a + "/", b);
    DigitsConcat(a, "/");
    assert Digits("/") == Digits("/"[1..]) == "";
  }

  /** The properties the mask promises, stated for a value `r` built from
      the digit string `d`. */
  predicate MaskedForm(r: string, d: string) {
    && |r| <= 10
    && (forall i :: 0 <= i < |r| ==> (if i == 2 || i == 5 then r[i] == '/' else IsDigit(r[i])))
    && Digits(r) == d[..Min(8, |d|)]
  }

  lemma MaskMedium(d: string)
    requires AllDigits(d) && 3 <= |d| <= 4
    ensures MaskedForm(d[..2] + "/" + d[2..], d)
  {
    var r := d[..2] + "/" + d[2..];
    DigitsAroundSlash(d[..2], d[2..]);
    DigitsOfDigits(d[..2]);
    DigitsOfDigits(d[2..]);
    assert d[..2] + d[2..] == d;
    assert forall i :: 0 <= i < |r| && i != 2 ==> r[i] == d[if i < 2 then i else i - 1];
  }

  lemma MaskLong(d: string)
    requires AllDigits(d) && |d| >= 5
    ensures MaskedForm(d[..2] + "/" + d[2..4] + "/" + d[4..Min(8, |d|)], d)
  {
    var m := Min(8, |d|);
    var r := d[..2] + "/" + d[2..4] + "/" + d[4..m];
    DigitsAroundSlash(d[..2] + "/" + d[2..4], d[4..m]);
    DigitsAroundSlash(d[..2], d[2..4]);
    DigitsOfDigits(d[..2]);
    DigitsOfDigits(d[2..4]);
    DigitsOfDigits(d[4..m]);
    assert d[..2] + d[2..4] + d[4..m] == d[..m];
    assert forall i :: 0 <= i < |r| && i != 2 && i != 5 ==>
      r[i] == d[if i < 2 then i else if i < 5 then i - 1 else i - 2];
  }

  /** What the mask makes of a string of digits. */
  lemma MaskDigitsProperties(d: string)
    requires AllDigits(d)
    ensures MaskedForm(MaskDigits(d), d)
  {
    MaskDigitsLayout(d);
    if |d| <= 2 {
      DigitsOfDigits(d);
    } else if |d| <= 4 {
      MaskMedium(d);
    } else {
      MaskLong(d);
    }
  }

  /** The `onInput` handler of the expiry field: keep the digits, put a
      slash after the day and after the month, and drop digits past the
      eighth. */
  function MaskExpiry(input: string): (r: string)
    ensures |r| <= 10
    ensures forall i :: 0 <= i < |r| ==> (if i == 2 || i == 5 then r[i] == '/' else IsDigit(r[i]))
    ensures Digits(r) == Digits(input)[..Min(8, |Digits(input)|)]
    ensures |r| > 0 ==> r[|r| - 1] != '/'
  {
    var d := Digits(input);
    MaskDigitsProperties(d);
    MaskDigitsLayout(d);
    MaskDigits(d)
  }

  /** Masking an already masked value changes nothing. */
  lemma MaskIdempotent(input: string)
    ensures MaskExpiry(MaskExpiry(input)) == MaskExpiry(input)
  {
    var d := Digits(input);
    var e := d[..Min(8, |d|)];
    MaskDigitsLayout(d);
    MaskDigitsLayout(e);
    if |d| >= 5 {
      assert e[..2] == d[..2] && e[2..4] == d[2..4] && e[4..Min(8, |e|)] == d[4..Min(8, |d|)];
    } else if |d| >= 3 {
      assert e == d;
    }
  }

  /** A complete DD/MM/YYYY value is left as it is. */
  lemma MaskKeepsShape(s: string)
    requires IsDateBRShape(s)
    ensures MaskExpiry(s) == s
  {
    assert s == s[..2] + "/" + s[3..5] + "/" + s[6..];
    DigitsAroundSlash(s[..2] + "/" + s[3..5], s[6..]);
    DigitsAroundSlash(s[..2], s[3..5]);
    DigitsOfDigits(s[..2]);
    DigitsOfDigits(s[3..5]);
    DigitsOfDigits(s[6..]);
    var d := s[..2] + s[3..5] + s[6..];
    assert Digits(s) == d;
    MaskDigitsLayout(d);
    assert d[..2] == s[..2] && d[2..4] == s[3..5] && d[4..8] == s[6..];
  }

  // ---------------------------------------------------------------------
  // Submission
  // ---------------------------------------------------------------------

  /** A row with destination, licence and expiry filled in (the standing
      number is not required here). */
  predicate IsCompleteRow(l: License) {
    l.paisDestino != "" && l.licenca != "" && l.vencimentoLicenca != ""
  }

  function Expiry(l: License): string { l.vencimentoLicenca }

  /** `paisesDestino.map(d => d.vencimentoLicenca)`. */
  function Expiries(rows: seq<License>): (vs: seq<string>)
    ensures |vs| == |rows|
    ensures forall i :: 0 <= i < |rows| ==> vs[i] == rows[i].vencimentoLicenca
  {
    seq(|rows|, i requires 0 <= i < |rows| => rows[i].vencimentoLicenca)
  }

  /** Two complete rows share an expiry date. */
  predicate RepeatsCompleteExpiry(rows: seq<License>) {
    exists i, j :: && 0 <= i < j < |rows|
                   && IsCompleteRow(rows[i]) && IsCompleteRow(rows[j])
                   && rows[i].vencimentoLicenca == rows[j].vencimentoLicenca
  }

  /** The kept rows are empty exactly when no row is complete. */
  lemma NoCompleteRowIff(rows: seq<License>)
    ensures |Filter(IsCompleteRow, rows)| == 0 <==> forall i :: 0 <= i < |rows| ==> !IsCompleteRow(rows[i])
    ensures |Filter(IsCompleteRow, rows)| == 0 ==> !RepeatsCompleteExpiry(rows)
  {
    var kept := Filter(IsCompleteRow, rows);
    SubsequenceMembers(kept, rows);
    if |kept| > 0 {
      assert kept[0] in rows;
    }
  }

  /** The `indexOf(v) !== i` filter over the kept rows' expiries finds
      something exactly when two complete rows of the form share an expiry. */
  lemma RepeatedExpiryIff(rows: seq<License>)
    ensures |RepeatsFrom(Expiries(Filter(IsCompleteRow, rows)), 0)| > 0 <==> RepeatsCompleteExpiry(rows)
  {
    RepeatsIffSharedExpiry(Filter(IsCompleteRow, rows));
    CompleteRowsShareExpiry(rows);
  }

  /** On any rows, the repeat filter over their expiries is non-empty exactly
      when two of them share an expiry. */
  lemma RepeatsIffSharedExpiry(kept: seq<License>)
    ensures |RepeatsFrom(Expiries(kept), 0)| > 0 <==> HasDuplicateBy(kept, Expiry)
  {
    var vs := Expiries(kept);
    RepeatsFromNonEmpty(vs, 0);
    if HasDuplicateBy(kept, Expiry) {
      var a, b :| 0 <= a < b < |kept| && Expiry(kept[a]) == Expiry(kept[b]);
      assert vs[a] == vs[b];
    }
    if exists a, b :: 0 <= a < b < |vs| && 0 <= b && vs[a] == vs[b] {
      var a, b :| 0 <= a < b < |vs| && vs[a] == vs[b];
      assert Expiry(kept[a]) == Expiry(kept[b]);
    }
  }

  /** The complete rows share an expiry exactly when two complete rows of
      the form do. */
  lemma CompleteRowsShareExpiry(rows: seq<License>)
    ensures HasDuplicateBy(Filter(IsCompleteRow, rows), Expiry) <==> RepeatsCompleteExpiry(rows)
  {
    FilterDuplicateBy(IsCompleteRow, rows, Expiry);
    if RepeatsCompleteExpiry(rows) {
      var i, j :| && 0 <= i < j < |rows|
                  && IsCompleteRow(rows[i]) && IsCompleteRow(rows[j])
                  && rows[i].vencimentoLicenca == rows[j].vencimentoLicenca;
      assert Expiry(rows[i]) == Expiry(rows[j]);
    }
  }

  /** With no repeat found, the kept rows' expiries are pairwise distinct. */
  lemma DistinctExpiries(kept: seq<License>)
    requires |RepeatsFrom(Expiries(kept), 0)| == 0
    ensures forall i, j :: 0 <= i < j < |kept| ==> kept[i].vencimentoLicenca != kept[j].vencimentoLicenca
  {
    RepeatsFromNonEmpty(Expiries(kept), 0);
  }

  datatype CarrierOutcome =
    | NoCompleteRow                                  // error toast, nothing sent
    | DuplicateExpiry(repeated: seq<string>)         // error toast, nothing sent
    | Update(id: nat, data: CarrierFormData)         // update request
    | Create(data: CarrierFormData)                  // create request

  /** `onSubmit(data)`; `editing` is the carrier being edited, if any. */
  function OnSubmit(form: CarrierFormData, editing: Option<Carrier>): (r: CarrierOutcome)
    ensures r.NoCompleteRow? <==> forall i :: 0 <= i < |form.paisesDestino| ==> !IsCompleteRow(form.paisesDestino[i])
    ensures r.DuplicateExpiry? <==> RepeatsCompleteExpiry(form.paisesDestino)
    ensures r.DuplicateExpiry? ==> |r.repeated| > 0
    ensures r.Update? ==> editing.Some? && r.id == editing.value.id
    ensures r.Create? ==> editing.None?
    ensures r.Update? || r.Create? ==>
              var rows := r.data.paisesDestino;
              && r.data == form.(paisesDestino := rows)
              && |rows| > 0
              && IsSubsequence(rows, form.paisesDestino)
              && (forall i :: 0 <= i < |rows| ==> IsCompleteRow(rows[i]))
              && (forall i :: 0 <= i < |form.paisesDestino| && IsCompleteRow(form.paisesDestino[i])
                              ==> form.paisesDestino[i] in rows)
              && (forall i, j :: 0 <= i < j < |rows| ==> rows[i].vencimentoLicenca != rows[j].vencimentoLicenca)
  {
    var kept := Filter(IsCompleteRow, form.paisesDestino);
    NoCompleteRowIff(form.paisesDestino);
    RepeatedExpiryIff(form.paisesDestino);
    if |kept| == 0 then
      NoCompleteRow
    else
      var vs := Expiries(kept);
      var repeated := RepeatsFrom(vs, 0);
      if |repeated| > 0 then
        DuplicateExpiry(repeated)
      else
        var data := form.(paisesDestino := kept);
        DistinctExpiries(kept);
        if editing.Some? then Update(editing.value.id, data) else Create(data)
  }
}
