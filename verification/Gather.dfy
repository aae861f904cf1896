/** `collectDNSSEC`: responses are kept one by one and merged into a union in
    which every record occurs once. */
module Gather {
  import opened Ordering
  import opened Bytes
  import opened Names
  import opened RData
  import opened Chain
  import opened RecordKey
  import opened Merging

  /** `units` are the single responses, `keys` the DNSKEY answer, `combined` the
      deduplicated union and `ds` the DS response, the anchor. */
  datatype DnssecData = DnssecData(units: seq<Msg>, keys: seq<RR>, combined: Msg, ds: Msg)

  /** Where no owner name is ambiguous, every record is kept up to its canonical
      form: same owner, same type, same fields. */
  lemma Representative(src: seq<RR>, rr: RR) returns (rep: RR)
    requires UnambiguousOwners(src) && rr in src
    ensures rep in Merged(KeyOf, src) && rep in src
    ensures Canon(rep.name) == Canon(rr.name) && TypeOf(rep.data) == TypeOf(rr.data)
    ensures RrKey(rep) == RrKey(rr)
    ensures Encodable(rr.data) && Encodable(rep.data) ==> Canonical(rep.data) == Canonical(rr.data)
  {
    MergedKeys(KeyOf, src, KeyOf(rr));
    rep :| rep in Merged(KeyOf, src) && KeyOf(rep) == KeyOf(rr);
    DedupMergesEqualRecords(rep, rr);
  }

  ghost predicate HasDs(rrs: seq<RR>) {
    exists rr :: rr in rrs && rr.data.DS?
  }

  lemma TypeIsDs(d: Data)
    ensures TypeOf(d) == TYPE_DS <==> d.DS?
  {
  }

  /** Merging keeps a DS record of unambiguous responses. */
  lemma DsSurvives(src: seq<RR>)
    requires UnambiguousOwners(src) && HasDs(src)
    ensures HasDs(Merged(KeyOf, src))
  {
    var rr :| rr in src && rr.data.DS?;
    var rep := Representative(src, rr);
    TypeIsDs(rr.data);
    TypeIsDs(rep.data);
  }

  /** In general no record of an ambiguous owner is safe: a record of another type
      that came first can share its key. */
  lemma RecordMayBeMergedAway(rr: RR, text: Str)
    requires Canon(rr.name) == ODD_NAME
    ensures Merged(KeyOf, [ShadowOf(rr, text), rr]) == [ShadowOf(rr, text)] && ShadowOf(rr, text).data.DNSKEY?
  {
    KeyShadowsRecord(rr, text);
    MergedPair(KeyOf, ShadowOf(rr, text), rr);
    assert [ShadowOf(rr, text)] + [rr] == [ShadowOf(rr, text), rr];
  }

  /** So a DS, too, can be gone from the union. */
  lemma DsMayBeMergedAway(keyTag: u16, algorithm: byte, digestType: byte, digest: Str, text: Str, text': Str)
    ensures var ds := DsAtOdd(keyTag, algorithm, digestType, digest, text');
            HasDs([ShadowOf(ds, text), ds]) && !HasDs(Merged(KeyOf, [ShadowOf(ds, text), ds]))
  {
    var ds := DsAtOdd(keyTag, algorithm, digestType, digest, text');
    ProperNames();
    RecordMayBeMergedAway(ds, text);
    assert ds in [ShadowOf(ds, text), ds];
  }

  /** The closure `add` of `collectDNSSEC`, with its shared `seen` map. */
  method Add(section: seq<RR>, ghost other: seq<RR>, seen: set<Str>, rr: RR, ghost src: seq<RR>)
    returns (section': seq<RR>, seen': set<Str>)
    requires IsUnion(KeyOf, src, section, other) && SeenKeys(KeyOf, seen, src)
    ensures IsUnion(KeyOf, src + [rr], section', other) && SeenKeys(KeyOf, seen', src + [rr])
    ensures section' == section + if HasKey(KeyOf, src, KeyOf(rr)) then [] else [rr]
  {
    var key := KeyOf(rr);
    SeeNew(KeyOf, seen, src, rr);
    MergedNext(KeyOf, src, rr);
    if key in seen {
      assert Merged(KeyOf, src) + [] == Merged(KeyOf, src) && section + [] == section;
      return section, seen;
    }
    KeepNew(KeyOf, src, section, other, rr);
    return section + [rr], seen + {key};
  }

  lemma PrefixNext(src: seq<RR>, rrs: seq<RR>, i: nat)
    requires i < |rrs|
    ensures src + rrs[..i] + [rrs[i]] == src + rrs[..i + 1]
  {
  }

  ghost predicate Drawn(section: seq<RR>, rrs: seq<RR>) {
    forall rr :: rr in section ==> rr in rrs
  }

  /** The closure `addAll`. */
  method AddAll(section: seq<RR>, ghost other: seq<RR>, seen: set<Str>, rrs: seq<RR>, ghost src: seq<RR>)
    returns (section': seq<RR>, seen': set<Str>)
    requires IsUnion(KeyOf, src, section, other) && SeenKeys(KeyOf, seen, src)
    ensures IsUnion(KeyOf, src + rrs, section', other) && SeenKeys(KeyOf, seen', src + rrs)
    ensures Drawn(section', section + rrs)
  {
    section', seen' := section, seen;
    assert src + rrs[..0] == src;
    for i := 0 to |rrs|
      invariant IsUnion(KeyOf, src + rrs[..i], section', other) && SeenKeys(KeyOf, seen', src + rrs[..i])
      invariant Drawn(section', section + rrs)
    {
      section', seen' := Add(section', other, seen', rrs[i], src + rrs[..i]);
      PrefixNext(src, rrs, i);
    }
    assert rrs[..|rrs|] == rrs;
  }

  /** Both sections of one response. */
  method AddResponse(combined: Msg, seen: set<Str>, resp: Msg, ghost src: seq<RR>)
    returns (combined': Msg, seen': set<Str>)
    requires IsUnion(KeyOf, src, combined.answer, combined.ns) && SeenKeys(KeyOf, seen, src)
    ensures IsUnion(KeyOf, src + resp.answer + resp.ns, combined'.answer, combined'.ns)
    ensures SeenKeys(KeyOf, seen', src + resp.answer + resp.ns)
    ensures Drawn(combined'.answer, combined.answer + resp.answer) && Drawn(combined'.ns, combined.ns + resp.ns)
  {
    var answer, ns;
    answer, seen' := AddAll(combined.answer, combined.ns, seen, resp.answer, src);
    SwapSections(KeyOf, src + resp.answer, answer, combined.ns);
    ns, seen' := AddAll(combined.ns, answer, seen', resp.ns, src + resp.answer);
    SwapSections(KeyOf, src + resp.answer + resp.ns, ns, answer);
    combined' := Msg(answer, ns);
  }

  function RecordsOf(resp: Option<Msg>): seq<RR> {
    match resp
    case None => []
    case Some(m) => m.answer + m.ns
  }

  function AnswerOf(resp: Option<Msg>): seq<RR> {
    if resp.Some? then resp.value.answer else []
  }

  function NsOf(resp: Option<Msg>): seq<RR> {
    if resp.Some? then resp.value.ns else []
  }

  function UnitOf(resp: Option<Msg>): seq<Msg> {
    match resp
    case None => []
    case Some(m) => [m]
  }

  /** Every record that reaches the union. */
  function AllRecords(initial: Msg, apexRecords: seq<RR>, keyResp: Option<Msg>, dsResp: Option<Msg>,
                      probe: Option<Msg>): seq<RR> {
    initial.answer + initial.ns + apexRecords + RecordsOf(keyResp) + RecordsOf(dsResp) + RecordsOf(probe)
  }

  predicate InResponse(resp: Option<Msg>, rr: RR) {
    resp.Some? && (rr in resp.value.answer || rr in resp.value.ns)
  }

  /** A record of the first response, of the apex records or of a later response. */
  predicate WasReceived(initial: Msg, apexRecords: seq<RR>, keyResp: Option<Msg>, dsResp: Option<Msg>,
                        probe: Option<Msg>, rr: RR) {
    || rr in initial.answer || rr in initial.ns || rr in apexRecords
    || InResponse(keyResp, rr) || InResponse(dsResp, rr) || InResponse(probe, rr)
  }

  lemma AllWereReceived(initial: Msg, apexRecords: seq<RR>, keyResp: Option<Msg>, dsResp: Option<Msg>,
                        probe: Option<Msg>, rr: RR)
    ensures rr in AllRecords(initial, apexRecords, keyResp, dsResp, probe)
            <==> WasReceived(initial, apexRecords, keyResp, dsResp, probe, rr)
  {
  }

  /** Of each key exactly the records received can be in the union, and one is. */
  lemma UnionKeepsKeys(src: seq<RR>, section: seq<RR>, other: seq<RR>, rr: RR)
    requires IsUnion(KeyOf, src, section, other)
    ensures rr in section + other ==> rr in src
    ensures rr in src ==> HasKey(KeyOf, section + other, KeyOf(rr))
  {
    MergedKeys(KeyOf, src, KeyOf(rr));
    if rr in src {
      var kept :| kept in Merged(KeyOf, src) && KeyOf(kept) == KeyOf(rr);
      assert kept in section + other;
    }
  }

  lemma DrawnFurther(s: seq<RR>, s': seq<RR>, a: seq<RR>, b: seq<RR>)
    requires Drawn(s, a) && Drawn(s', s + b)
    ensures Drawn(s', a + b)
  {
  }

  method AddOptional(combined: Msg, seen: set<Str>, resp: Option<Msg>, ghost src: seq<RR>)
    returns (combined': Msg, seen': set<Str>)
    requires IsUnion(KeyOf, src, combined.answer, combined.ns) && SeenKeys(KeyOf, seen, src)
    ensures IsUnion(KeyOf, src + RecordsOf(resp), combined'.answer, combined'.ns)
    ensures SeenKeys(KeyOf, seen', src + RecordsOf(resp))
    ensures Drawn(combined'.answer, combined.answer + AnswerOf(resp)) && Drawn(combined'.ns, combined.ns + NsOf(resp))
  {
    match resp {
      case None =>
        assert src + [] == src;
        combined', seen' := combined, seen;
      case Some(m) =>
        combined', seen' := AddResponse(combined, seen, m, src);
        Regroup(src, m.answer, m.ns);
    }
  }

  /** The three further queries: DNSKEY, DS and the negative probe. */
  method AddProbes(combined: Msg, seen: set<Str>, keyResp: Option<Msg>, dsResp: Option<Msg>, probe: Option<Msg>,
                   ghost src: seq<RR>, ghost answers: seq<RR>, ghost nss: seq<RR>)
    returns (combined': Msg, seen': set<Str>)
    requires IsUnion(KeyOf, src, combined.answer, combined.ns) && SeenKeys(KeyOf, seen, src)
    requires Drawn(combined.answer, answers) && Drawn(combined.ns, nss)
    ensures IsUnion(KeyOf, src + RecordsOf(keyResp) + RecordsOf(dsResp) + RecordsOf(probe), combined'.answer,
                    combined'.ns)
    ensures Drawn(combined'.answer, answers + AnswerOf(keyResp) + AnswerOf(dsResp) + AnswerOf(probe))
    ensures Drawn(combined'.ns, nss + NsOf(keyResp) + NsOf(dsResp) + NsOf(probe))
  {
    var c1, c2;
    c1, seen' := AddOptional(combined, seen, keyResp, src);
    c2, seen' := AddOptional(c1, seen', dsResp, src + RecordsOf(keyResp));
    combined', seen' := AddOptional(c2, seen', probe, src + RecordsOf(keyResp) + RecordsOf(dsResp));
    DrawnFurther(combined.answer, c1.answer, answers, AnswerOf(keyResp));
    DrawnFurther(c1.answer, c2.answer, answers + AnswerOf(keyResp), AnswerOf(dsResp));
    DrawnFurther(c2.answer, combined'.answer, answers + AnswerOf(keyResp) + AnswerOf(dsResp), AnswerOf(probe));
    DrawnFurther(combined.ns, c1.ns, nss, NsOf(keyResp));
    DrawnFurther(c1.ns, c2.ns, nss + NsOf(keyResp), NsOf(dsResp));
    DrawnFurther(c2.ns, combined'.ns, nss + NsOf(keyResp) + NsOf(dsResp), NsOf(probe));
  }

  /** `collectDNSSEC`. A response is `None` when its query failed. */
  method CollectDNSSEC(initial: Msg, apexRecords: seq<RR>, apexUnits: seq<Msg>, keyResp: Option<Msg>,
                       dsResp: Option<Msg>, probe: Option<Msg>) returns (d: DnssecData)
    ensures d.units == [initial] + apexUnits + UnitOf(keyResp) + UnitOf(dsResp) + UnitOf(probe)
    ensures d.keys == AnswerOf(keyResp)
    ensures d.ds.answer + d.ds.ns == RecordsOf(dsResp)
    ensures IsUnion(KeyOf, AllRecords(initial, apexRecords, keyResp, dsResp, probe), d.combined.answer, d.combined.ns)
    ensures forall rr :: WasReceived(initial, apexRecords, keyResp, dsResp, probe, rr)
                         ==> HasKey(KeyOf, d.combined.answer + d.combined.ns, KeyOf(rr))
    ensures forall rr :: rr in d.combined.answer + d.combined.ns
                         ==> WasReceived(initial, apexRecords, keyResp, dsResp, probe, rr)
    ensures Drawn(d.combined.answer,
                  initial.answer + apexRecords + AnswerOf(keyResp) + AnswerOf(dsResp) + AnswerOf(probe))
    ensures Drawn(d.combined.ns, initial.ns + NsOf(keyResp) + NsOf(dsResp) + NsOf(probe))
  {
    var src := initial.answer + initial.ns;
    var combined, seen: set<Str> := Msg([], []), {};
    assert [] + initial.answer + initial.ns == src;
    combined, seen := AddResponse(combined, seen, initial, []);
    var answer;
    answer, seen := AddAll(combined.answer, combined.ns, seen, apexRecords, src);
    DrawnFurther(combined.answer, answer, initial.answer, apexRecords);
    combined := Msg(answer, combined.ns);
    combined, seen := AddProbes(combined, seen, keyResp, dsResp, probe, src + apexRecords,
                                initial.answer + apexRecords, initial.ns);
    var units := [initial] + apexUnits + UnitOf(keyResp) + UnitOf(dsResp) + UnitOf(probe);
    var ds := if dsResp.Some? then dsResp.value else Msg([], []);
    d := DnssecData(units, AnswerOf(keyResp), combined, ds);
    forall rr
      ensures WasReceived(initial, apexRecords, keyResp, dsResp, probe, rr)
              ==> HasKey(KeyOf, combined.answer + combined.ns, KeyOf(rr))
      ensures rr in combined.answer + combined.ns ==> WasReceived(initial, apexRecords, keyResp, dsResp, probe, rr) {
      AllWereReceived(initial, apexRecords, keyResp, dsResp, probe, rr);
      UnionKeepsKeys(AllRecords(initial, apexRecords, keyResp, dsResp, probe), combined.answer, combined.ns, rr);
    }
  }
}
