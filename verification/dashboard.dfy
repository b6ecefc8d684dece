/** `src/pages/Dashboard/Dashboard.js`: the statistics cards, the five most
    recent documents and the licence-expiry panels. Instants are integers in
    milliseconds: `createdAt` is already one, `now` is the current instant,
    and `stamp` gives for an expiry string the instant `new Date(text)`
    yields, or `None` for an invalid date. */
module Dashboard {
  import opened Wrappers
  import opened Seqs
  import opened Domain

  // ---------------------------------------------------------------------
  // Statistics
  // ---------------------------------------------------------------------

  datatype Stats = Stats(
    transportadoras: nat,
    crts: nat,
    micDtas: nat,
    micDtasNormal: nat,
    micDtasLastre: nat)

  predicate IsNormal(m: MicDta) { m.tipo == NormalTipo }
  predicate IsLastre(m: MicDta) { m.tipo == LastreTipo }

  /** `stats`: all zero until the three datasets have loaded, then the sizes
      of the datasets and the number of MIC/DTAs of each kind. */
  function ComputeStats(carriers: Option<seq<Carrier>>, crts: Option<seq<Crt>>, mics: Option<seq<MicDta>>): (s: Stats)
    ensures carriers.None? || crts.None? || mics.None? ==> s == Stats(0, 0, 0, 0, 0)
    ensures carriers.Some? && crts.Some? && mics.Some? ==>
              && s.transportadoras == |carriers.value|
              && s.crts == |crts.value|
              && s.micDtas == |mics.value|
              && s.micDtasNormal == |Filter(IsNormal, mics.value)|
              && s.micDtasLastre == |Filter(IsLastre, mics.value)|
    ensures s.micDtasNormal + s.micDtasLastre <= s.micDtas
  {
    if carriers.None? || crts.None? || mics.None? then Stats(0, 0, 0, 0, 0)
    else
      CountDisjoint(IsNormal, IsLastre, mics.value);
      Stats(|carriers.value|, |crts.value|, |mics.value|,
            Count(IsNormal, mics.value), Count(IsLastre, mics.value))
  }

  /** When every MIC/DTA is NORMAL or LASTRE, the two kind cards add up to
      the total card. */
  lemma KindCardsPartitionTotal(carriers: seq<Carrier>, crts: seq<Crt>, mics: seq<MicDta>)
    requires forall i :: 0 <= i < |mics| ==> mics[i].tipo == NormalTipo || mics[i].tipo == LastreTipo
    ensures var s := ComputeStats(Some(carriers), Some(crts), Some(mics));
            s.micDtasNormal + s.micDtasLastre == s.micDtas
  {
    CountComplement(IsNormal, IsLastre, mics);
  }

  // ---------------------------------------------------------------------
  // Recent documents
  // ---------------------------------------------------------------------

  /** How many recent documents the panel lists. */
  const RecentLimit: nat := 5

  datatype RecentDocument = RecentDocument(typeLabel: string, displayName: string, date: int)

  function CrtEntry(c: Crt): RecentDocument {
    RecentDocument("CRT", "CRT " + c.numero, c.createdAt)
  }

  /** The kind label of a MIC/DTA: anything other than NORMAL reads as
      LASTRE. */
  function MicDtaTypeLabel(m: MicDta): (t: string)
    ensures t == "MIC/DTA Normal" || t == "MIC/DTA Lastre"
    ensures t == "MIC/DTA Normal" <==> m.tipo == NormalTipo
  {
    if m.tipo == NormalTipo then "MIC/DTA Normal" else "MIC/DTA Lastre"
  }

  function MicDtaEntry(m: MicDta): RecentDocument {
    RecentDocument(MicDtaTypeLabel(m), "MIC/DTA " + m.numero, m.createdAt)
  }

  /** `allDocs`: the CRTs, then the MIC/DTAs, each as a panel entry. */
  function AllDocuments(crts: seq<Crt>, mics: seq<MicDta>): (r: seq<RecentDocument>)
    ensures |r| == |crts| + |mics|
    ensures forall i :: 0 <= i < |crts| ==> r[i] == CrtEntry(crts[i])
    ensures forall i :: 0 <= i < |mics| ==> r[|crts| + i] == MicDtaEntry(mics[i])
  {
    seq(|crts|, i requires 0 <= i < |crts| => CrtEntry(crts[i]))
    + seq(|mics|, i requires 0 <= i < |mics| => MicDtaEntry(mics[i]))
  }

  /** The sort key of `(a, b) => new Date(b.date) - new Date(a.date)`. */
  function NewestFirst(d: RecentDocument): int { -d.date }

  /** `recentDocuments`: empty until both lists have loaded; then the
      `RecentLimit` newest documents, newest first. */
  function RecentDocuments(crts: Option<seq<Crt>>, mics: Option<seq<MicDta>>): (r: seq<RecentDocument>)
    ensures crts.None? || mics.None? ==> r == []
    ensures crts.Some? && mics.Some? ==>
              NewestSelection(r, AllDocuments(crts.value, mics.value), RecentLimit)
  {
    if crts.None? || mics.None? then []
    else
      var all := AllDocuments(crts.value, mics.value);
      NewestPrefix(all, RecentLimit);
      SortBy(all, NewestFirst)[..Shown(|all|, RecentLimit)]
  }

  /** How many of `n` documents a panel of `limit` shows. */
  function Shown(n: nat, limit: nat): nat {
    if n < limit then n else limit
  }

  /** `r` lists the `limit` newest documents of `all` (all of them when
      there are fewer), newest first, and nothing left out is newer than
      anything shown. */
  predicate NewestSelection(r: seq<RecentDocument>, all: seq<RecentDocument>, limit: nat) {
    && |r| == Shown(|all|, limit)
    && multiset(r) <= multiset(all)
    && (|all| <= limit ==> multiset(r) == multiset(all))
    && (forall i, j :: 0 <= i < j < |r| ==> r[i].date >= r[j].date)
    && (forall x, i :: x in multiset(all) - multiset(r) && 0 <= i < |r| ==> x.date <= r[i].date)
  }

  /** The first documents of `all` sorted newest first are the newest. */
  lemma NewestPrefix(all: seq<RecentDocument>, limit: nat)
    ensures NewestSelection(SortBy(all, NewestFirst)[..Shown(|all|, limit)], all, limit)
  {
    SortedPrefix(SortBy(all, NewestFirst), all, limit);
  }

  /** Any newest-first arrangement `sorted` of `all`: its first elements
      are the newest. */
  lemma SortedPrefix(sorted: seq<RecentDocument>, all: seq<RecentDocument>, limit: nat)
    requires SortedBy(sorted, NewestFirst)
    requires |sorted| == |all| && multiset(sorted) == multiset(all)
    ensures NewestSelection(sorted[..Shown(|all|, limit)], all, limit)
  {
    var k := Shown(|all|, limit);
    var r := sorted[..k];
    PrefixSplit(sorted, k);
    forall i, j | 0 <= i < j < k ensures r[i].date >= r[j].date {
      assert NewestFirst(sorted[i]) <= NewestFirst(sorted[j]);
    }
    forall x, i | x in multiset(all) - multiset(r) && 0 <= i < k
      ensures x.date <= r[i].date
    {
      assert x in multiset(sorted[k..]);
      assert x in sorted[k..];
      var j :| k <= j < |sorted| && sorted[j] == x;
      assert NewestFirst(sorted[i]) <= NewestFirst(sorted[j]);
    }
  }

  /** Splitting a sequence at `k` splits its multiset. */
  lemma PrefixSplit<T>(s: seq<T>, k: nat)
    requires k <= |s|
    ensures multiset(s) == multiset(s[..k]) + multiset(s[k..])
    ensures k == |s| ==> s[..k] == s
  {
    assert s == s[..k] + s[k..];
  }

  // ---------------------------------------------------------------------
  // Licence-expiry panels
  // ---------------------------------------------------------------------

  /** Milliseconds in a day. */
  const MsPerDay: int := 1000 * 60 * 60 * 24

  /** The "due soon" horizon, in days. */
  const SoonDays: int := 30

  /** `Math.ceil(a / b)` for a positive divisor: the least `q` with
      `a <= q * b`. */
  function CeilDiv(a: int, b: int): (q: int)
    requires b > 0
    ensures (q - 1) * b < a <= q * b
  {
    if a % b == 0 then a / b else a / b + 1
  }

  datatype ExpiringLicence = ExpiringLicence(
    transportadora: string,
    pais: string,
    licenca: string,
    vencimento: int,
    diasRestantes: int)

  /** `licencaInfo` for a licence whose expiry parses to `venc`. */
  function LicenceInfo(c: Carrier, l: License, venc: int, now: int): ExpiringLicence {
    ExpiringLicence(c.nome, l.paisDestino, l.licenca, venc, CeilDiv(venc - now, MsPerDay))
  }

  /** The licence has an expiry that parses as a date. */
  predicate Dated(l: License, stamp: string -> Option<int>) {
    l.vencimentoLicenca != "" && stamp(l.vencimentoLicenca).Some?
  }

  /** `x` is the entry built for licence `l` of carrier `c`. */
  predicate Tracks(x: ExpiringLicence, c: Carrier, l: License, stamp: string -> Option<int>, now: int) {
    Dated(l, stamp) && x == LicenceInfo(c, l, stamp(l.vencimentoLicenca).value, now)
  }

  /** Some licence in `lics` of carrier `c` produces `x`. */
  predicate TrackedIn(x: ExpiringLicence, c: Carrier, lics: seq<License>, stamp: string -> Option<int>, now: int) {
    exists j :: 0 <= j < |lics| && Tracks(x, c, lics[j], stamp, now)
  }

  /** The inner `forEach`: the entries of one carrier's licences `lics`, in
      order. */
  function CarrierInfos(c: Carrier, lics: seq<License>, stamp: string -> Option<int>, now: int)
    : seq<ExpiringLicence>
    decreases |lics|
  {
    if |lics| == 0 then []
    else
      var l := lics[0];
      var rest := CarrierInfos(c, lics[1..], stamp, now);
      if Dated(l, stamp) then [LicenceInfo(c, l, stamp(l.vencimentoLicenca).value, now)] + rest else rest
  }

  /** The entries of a carrier are exactly those its dated licences produce. */
  lemma {:induction false} CarrierInfosMembers(c: Carrier, lics: seq<License>, stamp: string -> Option<int>, now: int)
    ensures forall x :: x in CarrierInfos(c, lics, stamp, now) <==> TrackedIn(x, c, lics, stamp, now)
    decreases |lics|
  {
    if |lics| > 0 {
      CarrierInfosMembers(c, lics[1..], stamp, now);
      forall x ensures TrackedIn(x, c, lics, stamp, now) <==>
                       Tracks(x, c, lics[0], stamp, now) || TrackedIn(x, c, lics[1..], stamp, now)
      {
        if TrackedIn(x, c, lics[1..], stamp, now) {
          var j :| 0 <= j < |lics[1..]| && Tracks(x, c, lics[1..][j], stamp, now);
          assert Tracks(x, c, lics[j + 1], stamp, now);
        }
        if TrackedIn(x, c, lics, stamp, now) && !Tracks(x, c, lics[0], stamp, now) {
          var j :| 0 <= j < |lics| && Tracks(x, c, lics[j], stamp, now);
          assert lics[1..][j - 1] == lics[j];
        }
      }
    }
  }

  /** Each dated licence yields exactly one entry, in the licences' order:
      the entries are those of the dated licences, position by position. */
  lemma {:induction false} CarrierInfosOnePerLicence(c: Carrier, lics: seq<License>, stamp: string -> Option<int>, now: int)
    ensures var r := CarrierInfos(c, lics, stamp, now);
            var k := Filter((l: License) => Dated(l, stamp), lics);
            && |r| == |k|
            && forall i :: 0 <= i < |k| ==> r[i] == LicenceInfo(c, k[i], stamp(k[i].vencimentoLicenca).value, now)
    decreases |lics|
  {
    if |lics| > 0 {
      CarrierInfosOnePerLicence(c, lics[1..], stamp, now);
    }
  }

  /** Some licence of some carrier in `cs` produces `x`. */
  predicate Tracked(x: ExpiringLicence, cs: seq<Carrier>, stamp: string -> Option<int>, now: int) {
    exists i, j :: 0 <= i < |cs| && 0 <= j < |cs[i].paisesDestino| && Tracks(x, cs[i], cs[i].paisesDestino[j], stamp, now)
  }

  /** The nested `forEach`: each carrier's entries as a block, the carriers
      in order. */
  function Entries(cs: seq<Carrier>, stamp: string -> Option<int>, now: int): seq<ExpiringLicence>
    decreases |cs|
  {
    if |cs| == 0 then []
    else CarrierInfos(cs[0], cs[0].paisesDestino, stamp, now) + Entries(cs[1..], stamp, now)
  }

  lemma {:induction false} EntriesMembers(cs: seq<Carrier>, stamp: string -> Option<int>, now: int)
    ensures forall x :: x in Entries(cs, stamp, now) <==> Tracked(x, cs, stamp, now)
    decreases |cs|
  {
    if |cs| > 0 {
      EntriesMembers(cs[1..], stamp, now);
      CarrierInfosMembers(cs[0], cs[0].paisesDestino, stamp, now);
      var head := CarrierInfos(cs[0], cs[0].paisesDestino, stamp, now);
      assert forall x :: Tracked(x, cs[1..], stamp, now) ==> Tracked(x, cs, stamp, now) by {
        forall x | Tracked(x, cs[1..], stamp, now) ensures Tracked(x, cs, stamp, now) {
          var i, j :| 0 <= i < |cs[1..]| && 0 <= j < |cs[1..][i].paisesDestino|
                      && Tracks(x, cs[1..][i], cs[1..][i].paisesDestino[j], stamp, now);
          assert Tracks(x, cs[i + 1], cs[i + 1].paisesDestino[j], stamp, now);
        }
      }
      assert forall x :: Tracked(x, cs, stamp, now) ==> x in head || Tracked(x, cs[1..], stamp, now) by {
        forall x | Tracked(x, cs, stamp, now) ensures x in head || Tracked(x, cs[1..], stamp, now) {
          var i, j :| 0 <= i < |cs| && 0 <= j < |cs[i].paisesDestino| && Tracks(x, cs[i], cs[i].paisesDestino[j], stamp, now);
          if i > 0 {
            assert cs[1..][i - 1] == cs[i];
          }
        }
      }
    }
  }

  lemma {:induction false} EntriesAppend(a: seq<Carrier>, b: seq<Carrier>, stamp: string -> Option<int>, now: int)
    ensures Entries(a + b, stamp, now) == Entries(a, stamp, now) + Entries(b, stamp, now)
    decreases |a|
  {
    if |a| == 0 {
      assert a + b == b;
    } else {
      assert (a + b)[0] == a[0] && (a + b)[1..] == a[1..] + b;
      EntriesAppend(a[1..], b, stamp, now);
    }
  }

  /** The entries of every licence of every carrier, in the nested
      `forEach` order. */
  function AllInfos(cs: seq<Carrier>, stamp: string -> Option<int>, now: int): (r: seq<ExpiringLicence>)
    ensures forall x :: x in r <==> Tracked(x, cs, stamp, now)
  {
    EntriesMembers(cs, stamp, now);
    Entries(cs, stamp, now)
  }

  /** A single carrier's entries are its own block. */
  lemma AllInfosSingle(c: Carrier, stamp: string -> Option<int>, now: int)
    ensures AllInfos([c], stamp, now) == CarrierInfos(c, c.paisesDestino, stamp, now)
  {
    assert [c][1..] == [];
    assert Entries([], stamp, now) == [];
  }

  /** The outer `forEach` visits the carriers in order and appends each
      carrier's entries as a block: the entries of two carrier lists are
      those of the first followed by those of the second, so identical
      entries from different carriers are all kept. */
  lemma AllInfosAppend(a: seq<Carrier>, b: seq<Carrier>, stamp: string -> Option<int>, now: int)
    ensures AllInfos(a + b, stamp, now) == AllInfos(a, stamp, now) + AllInfos(b, stamp, now)
  {
    EntriesAppend(a, b, stamp, now);
  }

  predicate IsExpired(x: ExpiringLicence) { x.diasRestantes < 0 }
  predicate IsDueSoon(x: ExpiringLicence) { 0 <= x.diasRestantes <= SoonDays }

  /** The sort key of `(a, b) => a.vencimento - b.vencimento`. */
  function Vencimento(x: ExpiringLicence): int { x.vencimento }

  datatype ExpiryPanels = ExpiryPanels(vencidas: seq<ExpiringLicence>, proximasVencimento: seq<ExpiringLicence>)

  /** One panel: the entries of `all` that `belongs` admits, with their
      multiplicities, sorted by expiry, earliest first. */
  function Panel(belongs: ExpiringLicence -> bool, all: seq<ExpiringLicence>): (r: seq<ExpiringLicence>)
    ensures SortedBy(r, Vencimento)
    ensures forall x :: multiset(r)[x] == if belongs(x) then multiset(all)[x] else 0
    ensures forall x :: x in r ==> belongs(x)
  {
    var r := SortBy(Filter(belongs, all), Vencimento);
    assert forall x :: x in r ==> x in multiset(Filter(belongs, all));
    r
  }

  /** `licencasVencimento`: the expired licences and those due within
      `SoonDays`, each panel ordered by expiry, earliest first. A licence
      without an expiry, or with one that is no date, is in neither. */
  function LicencasVencimento(carriers: Option<seq<Carrier>>, stamp: string -> Option<int>, now: int)
    : (p: ExpiryPanels)
    ensures carriers.None? ==> p == ExpiryPanels([], [])
    ensures SortedBy(p.vencidas, Vencimento) && SortedBy(p.proximasVencimento, Vencimento)
    ensures carriers.Some? ==>
              var all := AllInfos(carriers.value, stamp, now);
              && (forall x :: multiset(p.vencidas)[x] == if IsExpired(x) then multiset(all)[x] else 0)
              && (forall x :: multiset(p.proximasVencimento)[x] == if IsDueSoon(x) then multiset(all)[x] else 0)
    ensures forall x :: x in p.vencidas ==> IsExpired(x) && x !in p.proximasVencimento
    ensures forall x :: x in p.proximasVencimento ==> IsDueSoon(x)
  {
    if carriers.None? then ExpiryPanels([], [])
    else
      var all := AllInfos(carriers.value, stamp, now);
      ExpiryPanels(Panel(IsExpired, all), Panel(IsDueSoon, all))
  }

  /** Which panel a tracked licence lands in, in terms of its expiry
      instant: expired once the expiry lies a full day or more in the past,
      due soon from then until `SoonDays` days ahead, in neither after
      that. */
  lemma PanelOfLicence(carriers: seq<Carrier>, stamp: string -> Option<int>, now: int, x: ExpiringLicence)
    requires Tracked(x, carriers, stamp, now)
    ensures var p := LicencasVencimento(Some(carriers), stamp, now);
            && (x in p.vencidas <==> x.vencimento <= now - MsPerDay)
            && (x in p.proximasVencimento <==> now - MsPerDay < x.vencimento <= now + SoonDays * MsPerDay)
  {
    var i, j :| 0 <= i < |carriers| && 0 <= j < |carriers[i].paisesDestino|
                && Tracks(x, carriers[i], carriers[i].paisesDestino[j], stamp, now);
    assert x.diasRestantes == CeilDiv(x.vencimento - now, MsPerDay);
    CeilDivBounds(x.vencimento - now, MsPerDay, SoonDays);
    var p := LicencasVencimento(Some(carriers), stamp, now);
    var all := AllInfos(carriers, stamp, now);
    assert x in all;
    assert x in p.vencidas <==> multiset(p.vencidas)[x] > 0;
    assert x in p.proximasVencimento <==> multiset(p.proximasVencimento)[x] > 0;
  }

  /** The ceiling quotient against the two panel thresholds. */
  lemma CeilDivBounds(a: int, b: int, n: nat)
    requires b > 0
    ensures CeilDiv(a, b) < 0 <==> a <= -b
    ensures 0 <= CeilDiv(a, b) <= n <==> -b < a <= n * b
  {
    var q := CeilDiv(a, b);
    if q < 0 {
      assert q <= -1;
      assert a <= q * b <= -b;
    }
    if q > n {
      assert (q - 1) * b >= n * b;
    }
    if q <= n {
      assert q * b <= n * b;
    }
  }
}
