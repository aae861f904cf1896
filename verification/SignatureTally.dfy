/** `verifySignatures`: every response is checked on its own, the outcomes are
    tallied by name and type, and a pair is reported when no response passed. */
module SignatureTally {
  import opened Ordering
  import opened Bytes
  import opened Names
  import opened RData
  import opened SignedData
  import opened Chain
  import opened RecordKey

  datatype PairStat = PairStat(passes: nat, fails: nat, name: Str, rtype: u16, keyTag: u16)

  /** The records of one unit with the zone keys attached. */
  function WithKeys(unit: Msg, keys: seq<RR>): seq<RR> {
    unit.answer + keys + unit.ns
  }

  function UnitKeys(c: Crypto, unit: Msg, keys: seq<RR>): ZoneKeys {
    Collected(c, WithKeys(unit, keys))
  }

  /** The pair is checked in this unit: in the zone, not DS, with covered
      records and a signature whose key is known. */
  ghost predicate Tracked(zk: ZoneKeys, apex: Str, name: Str, rtype: u16) {
    InZoneTest(name, apex) && rtype != TYPE_DS && Covered(zk, name, rtype) != []
    && exists sig :: Covers(zk, name, rtype, sig)
  }

  /** One signature check: the unit, the pair, whether it passed, and the key
      tag of the signature that prompted it. */
  datatype Check = Check(zk: ZoneKeys, name: Str, rtype: u16, passed: bool, keyTag: u16)

  ghost predicate Logged(log: set<Check>, name: Str, rtype: u16, passed: bool) {
    exists zk, tag :: Check(zk, name, rtype, passed, tag) in log
  }

  ghost predicate LoggedTag(log: set<Check>, name: Str, rtype: u16, keyTag: u16) {
    exists zk, passed :: Check(zk, name, rtype, passed, keyTag) in log
  }

  /** A tally entry says whether its pair passed and whether it failed. */
  ghost predicate EntryOk(log: set<Check>, key: Str, st: PairStat) {
    && key == StatsKey(st.name, st.rtype)
    && (st.passes > 0 || st.fails > 0)
    && (st.passes > 0 <==> Logged(log, st.name, st.rtype, true))
    && (st.fails > 0 <==> Logged(log, st.name, st.rtype, false))
    && LoggedTag(log, st.name, st.rtype, st.keyTag)
  }

  ghost predicate Tallied(stats: map<Str, PairStat>, log: set<Check>) {
    && (forall k :: k in stats ==> EntryOk(log, k, stats[k]))
    && (forall e :: e in log ==> StatsKey(e.name, e.rtype) in stats)
  }

  /** The tag is that of a covering signature. */
  ghost predicate TagCovers(zk: ZoneKeys, name: Str, rtype: u16, keyTag: u16) {
    exists sig :: Covers(zk, name, rtype, sig) && sig.keyTag == keyTag
  }

  /** Each logged outcome is one the unit can have. */
  ghost predicate Sound(c: Crypto, apex: Str, e: Check) {
    && Tracked(e.zk, apex, e.name, e.rtype)
    && TagCovers(e.zk, e.name, e.rtype, e.keyTag)
    && (e.passed ==> AllAccepted(c, e.zk, e.name, e.rtype))
    && (!e.passed ==> SomeRejected(c, e.zk, e.name, e.rtype))
  }

  ghost predicate Justified(c: Crypto, apex: Str, units: set<ZoneKeys>, log: set<Check>) {
    forall e :: e in log ==> e.zk in units && Sound(c, apex, e)
  }

  ghost predicate Checked(log: set<Check>, zk: ZoneKeys, name: Str, rtype: u16) {
    exists passed, tag :: Check(zk, name, rtype, passed, tag) in log
  }

  /** Every pair that a unit tracks was checked there. */
  ghost predicate Complete(apex: Str, units: set<ZoneKeys>, log: set<Check>) {
    forall zk, n, t: u16 :: zk in units && Tracked(zk, apex, n, t) ==> Checked(log, zk, n, t)
  }

  // ----- which key tag is kept -----

  function Either<T>(a: Option<T>, b: Option<T>): Option<T> {
    if a.Some? then a else b
  }

  /** The tag that the tally keeps for a pair. */
  function TagOf(stats: map<Str, PairStat>, name: Str, rtype: u16): Option<u16> {
    if StatsKey(name, rtype) in stats then Some(stats[StatsKey(name, rtype)].keyTag) else None
  }

  /** The tag of the first signature in a list that is checked for the type. */
  ghost function FirstIn(zk: ZoneKeys, name: Str, sigs: seq<RRSIGInfo>, rtype: u16): Option<u16> {
    if sigs == [] then None
    else
      var sig := sigs[|sigs| - 1];
      Either(FirstIn(zk, name, sigs[..|sigs| - 1], rtype),
             if sig.typeCovered == rtype && IsChecked(zk, name, sig) then Some(sig.keyTag) else None)
  }

  ghost function UnitTag(zk: ZoneKeys, apex: Str, name: Str, rtype: u16): Option<u16> {
    if InZoneTest(name, apex) then FirstIn(zk, name, Lookup(zk.rrsigs, name), rtype) else None
  }

  /** The tag of the first checked signature in the first unit that has one. */
  ghost function FirstTag(c: Crypto, apex: Str, units: seq<Msg>, keys: seq<RR>, name: Str, rtype: u16): Option<u16> {
    if units == [] then None
    else
      Either(FirstTag(c, apex, units[..|units| - 1], keys, name, rtype),
             UnitTag(UnitKeys(c, units[|units| - 1], keys), apex, name, rtype))
  }

  /** The tags after checking one signature. */
  ghost predicate OneTag(zk: ZoneKeys, name: Str, sig: RRSIGInfo, stats: map<Str, PairStat>,
                         stats': map<Str, PairStat>) {
    forall n, t: u16 :: TagOf(stats', n, t)
                        == Either(TagOf(stats, n, t), if n == name && t == sig.typeCovered && IsChecked(zk, name, sig)
                                                      then Some(sig.keyTag) else None)
  }

  // ----- the loops -----

  /** The three `continue` guards of the innermost loop, negated. */
  ghost predicate IsChecked(zk: ZoneKeys, name: Str, sig: RRSIGInfo) {
    sig.typeCovered != TYPE_DS && Covered(zk, name, sig.typeCovered) != [] && HasTag(zk, sig.keyTag)
  }

  lemma TallyNew(stats: map<Str, PairStat>, log: set<Check>, e: Check, st: PairStat)
    requires Tallied(stats, log)
    requires var k := StatsKey(e.name, e.rtype);
             var prev := if k in stats then stats[k] else PairStat(0, 0, e.name, e.rtype, e.keyTag);
             st == if e.passed then prev.(passes := prev.passes + 1) else prev.(fails := prev.fails + 1)
    ensures Tallied(stats[StatsKey(e.name, e.rtype) := st], log + {e})
  {
    var k := StatsKey(e.name, e.rtype);
    var log' := log + {e};
    assert Check(e.zk, e.name, e.rtype, e.passed, e.keyTag) in log';
    forall n, t: u16, p
      ensures Logged(log', n, t, p) <==> Logged(log, n, t, p) || (n == e.name && t == e.rtype && p == e.passed) {
      if Logged(log, n, t, p) {
        var zk, tag :| Check(zk, n, t, p, tag) in log;
        assert Check(zk, n, t, p, tag) in log';
      }
    }
    forall n, t: u16, tag | LoggedTag(log, n, t, tag) ensures LoggedTag(log', n, t, tag) {
      var zk, p :| Check(zk, n, t, p, tag) in log;
      assert Check(zk, n, t, p, tag) in log';
    }
    if k in stats {
      StatsKeyIsInjective(stats[k].name, stats[k].rtype, e.name, e.rtype);
    } else {
      NotLogged(stats, log, e.name, e.rtype);
    }
    forall k' | k' in stats && k' != k ensures EntryOk(log', k', stats[k']) {}
  }

  lemma NotLogged(stats: map<Str, PairStat>, log: set<Check>, n: Str, t: u16)
    requires Tallied(stats, log) && StatsKey(n, t) !in stats
    ensures !Logged(log, n, t, true) && !Logged(log, n, t, false)
  {
  }

  /** The guards of the innermost loop and the check itself. */
  method CheckOutcome(c: Crypto, zk: ZoneKeys, name: Str, sig: RRSIGInfo) returns (checked: bool, passed: bool)
    requires sig in Lookup(zk.rrsigs, name)
    ensures checked <==> IsChecked(zk, name, sig)
    ensures checked && passed ==> AllAccepted(c, zk, name, sig.typeCovered)
    ensures checked && !passed ==> SomeRejected(c, zk, name, sig.typeCovered)
  {
    if sig.typeCovered == TYPE_DS || Covered(zk, name, sig.typeCovered) == [] {
      return false, false;
    }
    var key := KeyForKeyTag(zk, sig.keyTag);
    if key.None? {
      return false, false;
    }
    var idx := VerifyRRSIGForType(c, zk, name, sig.typeCovered);
    return true, idx < 0;
  }

  /** Counts one outcome; the tag kept is that of the pair's first signature. */
  method Count(stats: map<Str, PairStat>, ghost log: set<Check>, ghost zk: ZoneKeys, name: Str, rtype: u16,
               keyTag: u16, passed: bool) returns (stats': map<Str, PairStat>)
    requires Tallied(stats, log)
    ensures Tallied(stats', log + {Check(zk, name, rtype, passed, keyTag)})
    ensures stats'.Keys == stats.Keys + {StatsKey(name, rtype)}
    ensures forall n, t: u16 :: TagOf(stats', n, t)
                                == Either(TagOf(stats, n, t), if n == name && t == rtype then Some(keyTag) else None)
  {
    var k := StatsKey(name, rtype);
    var st := if k in stats then stats[k] else PairStat(0, 0, name, rtype, keyTag);
    st := if passed then st.(passes := st.passes + 1) else st.(fails := st.fails + 1);
    TallyNew(stats, log, Check(zk, name, rtype, passed, keyTag), st);
    stats' := stats[k := st];
    forall n, t: u16 | StatsKey(n, t) == k ensures n == name && t == rtype {
      StatsKeyIsInjective(n, t, name, rtype);
    }
  }

  lemma OutcomeIsSound(c: Crypto, apex: Str, zk: ZoneKeys, name: Str, sig: RRSIGInfo, passed: bool)
    requires InZoneTest(name, apex) && sig in Lookup(zk.rrsigs, name) && IsChecked(zk, name, sig)
    requires passed ==> AllAccepted(c, zk, name, sig.typeCovered)
    requires !passed ==> SomeRejected(c, zk, name, sig.typeCovered)
    ensures Sound(c, apex, Check(zk, name, sig.typeCovered, passed, sig.keyTag))
  {
    assert Covers(zk, name, sig.typeCovered, sig);
  }

  /** What was added to the log are sound checks of this unit. */
  ghost predicate LogGrows(c: Crypto, apex: Str, zk: ZoneKeys, log: set<Check>, log': set<Check>) {
    log <= log' && forall e :: e in log' - log ==> e.zk == zk && Sound(c, apex, e)
  }

  lemma GrowsFurther(c: Crypto, apex: Str, zk: ZoneKeys, log: set<Check>, mid: set<Check>, log': set<Check>)
    requires LogGrows(c, apex, zk, log, mid) && LogGrows(c, apex, zk, mid, log')
    ensures LogGrows(c, apex, zk, log, log')
  {
    forall e | e in log' - log ensures e.zk == zk && Sound(c, apex, e) {
      assert e in mid - log || e in log' - mid;
    }
  }

  /** The checked ones of the first `i` signatures are in the log. */
  ghost predicate FirstChecked(zk: ZoneKeys, name: Str, i: nat, log: set<Check>) {
    forall j :: 0 <= j < |Lookup(zk.rrsigs, name)| && j < i && IsChecked(zk, name, Lookup(zk.rrsigs, name)[j])
                ==> Checked(log, zk, name, Lookup(zk.rrsigs, name)[j].typeCovered)
  }

  lemma NextChecked(zk: ZoneKeys, name: Str, i: nat, log: set<Check>, log': set<Check>)
    requires FirstChecked(zk, name, i, log) && log <= log' && i < |Lookup(zk.rrsigs, name)|
    requires var sig := Lookup(zk.rrsigs, name)[i];
             IsChecked(zk, name, sig) ==> Checked(log', zk, name, sig.typeCovered)
    ensures FirstChecked(zk, name, i + 1, log')
  {
    var sigs := Lookup(zk.rrsigs, name);
    forall j | 0 <= j < i && IsChecked(zk, name, sigs[j]) ensures Checked(log', zk, name, sigs[j].typeCovered) {
      var p, tag :| Check(zk, name, sigs[j].typeCovered, p, tag) in log;
      assert Check(zk, name, sigs[j].typeCovered, p, tag) in log';
    }
  }

  /** The body of the innermost loop: one signature of one name. */
  method CheckSignature(c: Crypto, zk: ZoneKeys, name: Str, sig: RRSIGInfo, stats: map<Str, PairStat>,
                        ghost apex: Str, ghost log: set<Check>)
    returns (stats': map<Str, PairStat>, ghost log': set<Check>)
    requires Tallied(stats, log) && InZoneTest(name, apex) && sig in Lookup(zk.rrsigs, name)
    ensures Tallied(stats', log') && LogGrows(c, apex, zk, log, log')
    ensures IsChecked(zk, name, sig) ==> Checked(log', zk, name, sig.typeCovered)
    ensures OneTag(zk, name, sig, stats, stats')
  {
    stats', log' := stats, log;
    var checked, passed := CheckOutcome(c, zk, name, sig);
    if checked {
      ghost var e := Check(zk, name, sig.typeCovered, passed, sig.keyTag);
      OutcomeIsSound(c, apex, zk, name, sig, passed);
      stats' := Count(stats, log, zk, name, sig.typeCovered, sig.keyTag, passed);
      log' := log + {e};
      assert e in log';
    }
  }

  /** The tags after checking `sigs` of one name. */
  ghost predicate NameTags(zk: ZoneKeys, name: Str, sigs: seq<RRSIGInfo>, stats: map<Str, PairStat>,
                           stats': map<Str, PairStat>) {
    forall n, t: u16 :: TagOf(stats', n, t)
                        == Either(TagOf(stats, n, t), if n == name then FirstIn(zk, name, sigs, t) else None)
  }

  lemma NameTagsNext(zk: ZoneKeys, name: Str, sigs: seq<RRSIGInfo>, sig: RRSIGInfo, stats: map<Str, PairStat>,
                     mid: map<Str, PairStat>, stats': map<Str, PairStat>)
    requires NameTags(zk, name, sigs, stats, mid) && OneTag(zk, name, sig, mid, stats')
    ensures NameTags(zk, name, sigs + [sig], stats, stats')
  {
    assert (sigs + [sig])[..|sigs|] == sigs;
  }

  /** The tags after checking all names of a unit outside `todo`. */
  ghost predicate UnitTags(zk: ZoneKeys, apex: Str, todo: set<Str>, stats: map<Str, PairStat>,
                           stats': map<Str, PairStat>) {
    forall n, t: u16 :: TagOf(stats', n, t)
                        == Either(TagOf(stats, n, t), if n in todo then None else UnitTag(zk, apex, n, t))
  }

  lemma UnitTagsNext(zk: ZoneKeys, apex: Str, todo: set<Str>, name: Str, stats: map<Str, PairStat>,
                     mid: map<Str, PairStat>, stats': map<Str, PairStat>)
    requires UnitTags(zk, apex, todo, stats, mid) && name in todo
    requires if InZoneTest(name, apex) then NameTags(zk, name, Lookup(zk.rrsigs, name), mid, stats') else mid == stats'
    ensures UnitTags(zk, apex, todo - {name}, stats, stats')
  {
  }

  /** All signatures of one name of a unit. */
  method CheckName(c: Crypto, zk: ZoneKeys, name: Str, stats: map<Str, PairStat>, ghost apex: Str,
                   ghost log: set<Check>) returns (stats': map<Str, PairStat>, ghost log': set<Check>)
    requires Tallied(stats, log) && InZoneTest(name, apex)
    ensures Tallied(stats', log') && LogGrows(c, apex, zk, log, log')
    ensures forall t :: Tracked(zk, apex, name, t) ==> Checked(log', zk, name, t)
    ensures NameTags(zk, name, Lookup(zk.rrsigs, name), stats, stats')
  {
    var sigs := Lookup(zk.rrsigs, name);
    stats', log' := stats, log;
    for i := 0 to |sigs|
      invariant Tallied(stats', log') && LogGrows(c, apex, zk, log, log')
      invariant FirstChecked(zk, name, i, log')
      invariant NameTags(zk, name, sigs[..i], stats, stats')
    {
      ghost var mid, before := stats', log';
      stats', log' := CheckSignature(c, zk, name, sigs[i], stats', apex, log');
      GrowsFurther(c, apex, zk, log, before, log');
      NextChecked(zk, name, i, before, log');
      NameTagsNext(zk, name, sigs[..i], sigs[i], stats, mid, stats');
      assert sigs[..i] + [sigs[i]] == sigs[..i + 1];
    }
    assert sigs[..|sigs|] == sigs;
    AllChecked(zk, apex, name, log');
  }

  lemma AllChecked(zk: ZoneKeys, apex: Str, name: Str, log: set<Check>)
    requires FirstChecked(zk, name, |Lookup(zk.rrsigs, name)|, log)
    ensures forall t :: Tracked(zk, apex, name, t) ==> Checked(log, zk, name, t)
  {
    forall t | Tracked(zk, apex, name, t) ensures Checked(log, zk, name, t) {
      var sig :| Covers(zk, name, t, sig);
      var sigs := Lookup(zk.rrsigs, name);
      var j :| 0 <= j < |sigs| && sigs[j] == sig;
    }
  }

  /** All in-zone names of a unit, in any order. */
  method CheckUnit(c: Crypto, zk: ZoneKeys, apex: Str, stats: map<Str, PairStat>, ghost log: set<Check>)
    returns (stats': map<Str, PairStat>, ghost log': set<Check>)
    requires Tallied(stats, log)
    requires forall n :: n in zk.rrsigs ==> Canon(n) == n
    ensures Tallied(stats', log') && LogGrows(c, apex, zk, log, log')
    ensures forall n, t: u16 :: Tracked(zk, apex, n, t) ==> Checked(log', zk, n, t)
    ensures UnitTags(zk, apex, {}, stats, stats')
  {
    stats', log' := stats, log;
    var todo := zk.rrsigs.Keys;
    while todo != {}
      invariant todo <= zk.rrsigs.Keys
      invariant Tallied(stats', log') && LogGrows(c, apex, zk, log, log')
      invariant forall n, t: u16 :: n !in todo && Tracked(zk, apex, n, t) ==> Checked(log', zk, n, t)
      invariant UnitTags(zk, apex, todo, stats, stats')
      decreases todo
    {
      var name :| name in todo;
      ghost var mid, before := stats', todo;
      todo := todo - {name};
      var lname := Canon(name);
      if InZoneTest(lname, apex) {
        stats', log' := CheckName(c, zk, lname, stats', apex, log');
      }
      UnitTagsNext(zk, apex, before, name, stats, mid, stats');
    }
  }

  lemma {:induction false} FiledNamesAreCanonical(rrs: seq<RR>, name: Str)
    requires SigsAt(rrs, name) != []
    ensures Canon(name) == name
  {
    var rr := rrs[|rrs| - 1];
    if SigsAt(rrs[..|rrs| - 1], name) != [] {
      FiledNamesAreCanonical(rrs[..|rrs| - 1], name);
    } else {
      CanonIsStable(rr.name);
    }
  }

  lemma UnitNamesAreCanonical(c: Crypto, rrs: seq<RR>)
    ensures forall n :: n in Collected(c, rrs).rrsigs ==> Canon(n) == n
  {
    var zk := Collected(c, rrs);
    CollectedFiles(c, rrs);
    forall n | n in zk.rrsigs ensures Canon(n) == n {
      assert Lookup(zk.rrsigs, n) == SigsAt(rrs, n);
      FiledNamesAreCanonical(rrs, n);
    }
  }

  /** The collections of a list of units. */
  ghost function UnitSet(c: Crypto, units: seq<Msg>, keys: seq<RR>): set<ZoneKeys> {
    set u | u in units :: UnitKeys(c, u, keys)
  }

  lemma UnitSetNext(c: Crypto, units: seq<Msg>, keys: seq<RR>, i: nat)
    requires i < |units|
    ensures UnitSet(c, units[..i + 1], keys) == UnitSet(c, units[..i], keys) + {UnitKeys(c, units[i], keys)}
  {
    assert units[..i + 1] == units[..i] + [units[i]];
    forall u | u in units[..i + 1] ensures u in units[..i] || u == units[i] {}
    forall u | u in units[..i] ensures UnitKeys(c, u, keys) in UnitSet(c, units[..i + 1], keys) {
      assert u in units[..i + 1];
    }
    assert units[i] in units[..i + 1];
  }

  ghost predicate KeepsFirstTags(c: Crypto, apex: Str, units: seq<Msg>, keys: seq<RR>, stats: map<Str, PairStat>) {
    forall n, t: u16 :: TagOf(stats, n, t) == FirstTag(c, apex, units, keys, n, t)
  }

  /** All units: the tally stands for a complete and justified log. */
  method TallyUnits(c: Crypto, apex: Str, units: seq<Msg>, keys: seq<RR>)
    returns (stats: map<Str, PairStat>, ghost log: set<Check>)
    ensures Tallied(stats, log)
    ensures Justified(c, apex, UnitSet(c, units, keys), log) && Complete(apex, UnitSet(c, units, keys), log)
    ensures KeepsFirstTags(c, apex, units, keys, stats)
  {
    stats, log := map[], {};
    for i := 0 to |units|
      invariant Tallied(stats, log)
      invariant Justified(c, apex, UnitSet(c, units[..i], keys), log)
      invariant Complete(apex, UnitSet(c, units[..i], keys), log)
      invariant KeepsFirstTags(c, apex, units[..i], keys, stats)
    {
      assert units[..i + 1][..i] == units[..i] && units[..i + 1][i] == units[i];
      var unit := units[i];
      var zk := Collect(c, Msg(unit.answer + keys, unit.ns));
      UnitNamesAreCanonical(c, unit.answer + keys + unit.ns);
      UnitSetNext(c, units, keys, i);
      ghost var before := log;
      stats, log := CheckUnit(c, zk, apex, stats, log);
      forall e | e in log ensures e.zk in UnitSet(c, units[..i + 1], keys) && Sound(c, apex, e) {
        assert e in before || e in log - before;
      }
    }
    assert units[..|units|] == units;
  }

  // ----- what the tally says about the responses -----

  ghost predicate TrackedSomewhere(units: set<ZoneKeys>, apex: Str, name: Str, rtype: u16) {
    exists zk :: zk in units && Tracked(zk, apex, name, rtype)
  }

  ghost predicate RejectedEverywhere(c: Crypto, units: set<ZoneKeys>, apex: Str, name: Str, rtype: u16) {
    forall zk :: zk in units && Tracked(zk, apex, name, rtype) ==> SomeRejected(c, zk, name, rtype)
  }

  ghost predicate AcceptedSomewhere(c: Crypto, units: set<ZoneKeys>, apex: Str, name: Str, rtype: u16) {
    exists zk :: zk in units && Tracked(zk, apex, name, rtype) && AllAccepted(c, zk, name, rtype)
  }

  /** The evidence names the tag of a covering signature. */
  ghost predicate TagSomewhere(units: set<ZoneKeys>, n: Str, t: u16, keyTag: u16) {
    exists zk :: zk in units && TagCovers(zk, n, t, keyTag)
  }

  /** The aggregation rule: a pair is logged if and only if it is tracked, it
      passed only where it was accepted, and without a pass it was rejected
      wherever it is tracked. */
  lemma AggregationIsExact(c: Crypto, apex: Str, units: set<ZoneKeys>, log: set<Check>, n: Str, t: u16)
    requires Justified(c, apex, units, log) && Complete(apex, units, log)
    ensures Logged(log, n, t, true) || Logged(log, n, t, false) <==> TrackedSomewhere(units, apex, n, t)
    ensures Logged(log, n, t, true) ==> AcceptedSomewhere(c, units, apex, n, t)
    ensures !Logged(log, n, t, true) ==> RejectedEverywhere(c, units, apex, n, t)
  {
    forall p | Logged(log, n, t, p) ensures TrackedSomewhere(units, apex, n, t) {
      var zk, tag :| Check(zk, n, t, p, tag) in log;
      assert Sound(c, apex, Check(zk, n, t, p, tag));
    }
    if Logged(log, n, t, true) {
      var zk, tag :| Check(zk, n, t, true, tag) in log;
      assert Sound(c, apex, Check(zk, n, t, true, tag));
    }
    forall zk | zk in units && Tracked(zk, apex, n, t)
      ensures Logged(log, n, t, true) || (Logged(log, n, t, false) && SomeRejected(c, zk, n, t)) {
      assert Checked(log, zk, n, t);
      var p, tag :| Check(zk, n, t, p, tag) in log;
      assert Sound(c, apex, Check(zk, n, t, p, tag));
    }
  }

  // ----- pairs in terms of the records -----

  /** In this list of records a signature at `n` covers type `t`, and a key at
      some name has its tag. */
  ghost predicate Candidate(c: Crypto, rrs: seq<RR>, n: Str, t: u16, sig: RRSIGInfo, k: KeyInfo) {
    sig in SigsAt(rrs, n) && sig.typeCovered == t && k.keyTag == sig.keyTag && exists m :: k in KeysAt(c, rrs, m)
  }

  /** The library's answer for the covered records of the same list. */
  ghost predicate Answer(c: Crypto, rrs: seq<RR>, n: Str, t: u16, sig: RRSIGInfo, k: KeyInfo) {
    c.verifies(sig, k, SignedOctets(sig, n, RRsAt(rrs, n, t)))
  }

  ghost predicate Confirms(c: Crypto, rrs: seq<RR>, n: Str, t: u16, sig: RRSIGInfo, k: KeyInfo) {
    Candidate(c, rrs, n, t, sig, k) && Answer(c, rrs, n, t, sig, k)
  }

  ghost predicate Refutes(c: Crypto, rrs: seq<RR>, n: Str, t: u16, sig: RRSIGInfo, k: KeyInfo) {
    Candidate(c, rrs, n, t, sig, k) && !Answer(c, rrs, n, t, sig, k)
  }

  /** The pair is checked here: a name of the zone, any type but DS (43), with
      records and a signature whose key is there. */
  ghost predicate TrackedIn(c: Crypto, apex: Str, rrs: seq<RR>, n: Str, t: u16) {
    && InZoneTest(n, apex) && t != 43 && RRsAt(rrs, n, t) != []
    && exists sig, k :: Candidate(c, rrs, n, t, sig, k)
  }

  /** Each signature whose key is there is confirmed by such a key. */
  ghost predicate AcceptedIn(c: Crypto, rrs: seq<RR>, n: Str, t: u16) {
    forall sig, k :: Candidate(c, rrs, n, t, sig, k) ==> exists k' :: Confirms(c, rrs, n, t, sig, k')
  }

  /** Some signature is refuted by a key with its tag. */
  ghost predicate RejectedIn(c: Crypto, rrs: seq<RR>, n: Str, t: u16) {
    exists sig, k :: Refutes(c, rrs, n, t, sig, k)
  }

  ghost predicate CandidateOf(zk: ZoneKeys, n: Str, t: u16, sig: RRSIGInfo, k: KeyInfo) {
    sig in Lookup(zk.rrsigs, n) && sig.typeCovered == t && KeyWithTag(zk, sig.keyTag, k)
  }

  /** The collection and the records it was made of know the same candidates, and
      a check of the collection gives the library's answer. */
  ghost predicate SameChecks(c: Crypto, rrs: seq<RR>, zk: ZoneKeys, n: Str, t: u16) {
    && (forall sig, k :: Candidate(c, rrs, n, t, sig, k) <==> CandidateOf(zk, n, t, sig, k))
    && (forall sig, k :: Candidate(c, rrs, n, t, sig, k)
                         ==> (Verifies(c, zk, n, t, sig, k) <==> Answer(c, rrs, n, t, sig, k)))
  }

  lemma KeyIsCollected(c: Crypto, rrs: seq<RR>, zk: ZoneKeys, k: KeyInfo)
    requires KeysFiled(c, rrs, zk.dnskeys)
    ensures (exists m :: k in KeysAt(c, rrs, m)) <==> KeyWithTag(zk, k.keyTag, k)
    ensures KeyWithTag(zk, k.keyTag, k) ==> k.algorithm in SUPPORTED
  {
    if m :| k in KeysAt(c, rrs, m) {
      CollectedKeysAreSupported(c, rrs, m);
      assert Lookup(zk.dnskeys, m) == KeysAt(c, rrs, m);
      assert m in zk.dnskeys && k in zk.dnskeys[m];
    }
    if m :| m in zk.dnskeys && k in zk.dnskeys[m] {
      assert Lookup(zk.dnskeys, m) == KeysAt(c, rrs, m);
      assert k in KeysAt(c, rrs, m);
      CollectedKeysAreSupported(c, rrs, m);
    }
  }

  lemma ChecksAgree(c: Crypto, rrs: seq<RR>, zk: ZoneKeys, n: Str, t: u16)
    requires IsCollection(c, rrs, zk)
    ensures SameChecks(c, rrs, zk, n, t)
  {
    assert Lookup(zk.rrsigs, n) == SigsAt(rrs, n) && Covered(zk, n, t) == RRsAt(rrs, n, t);
    forall sig, k
      ensures Candidate(c, rrs, n, t, sig, k) <==> CandidateOf(zk, n, t, sig, k)
      ensures Candidate(c, rrs, n, t, sig, k) ==> (Verifies(c, zk, n, t, sig, k) <==> Answer(c, rrs, n, t, sig, k)) {
      KeyIsCollected(c, rrs, zk, k);
    }
  }

  lemma CoversIsCandidate(c: Crypto, rrs: seq<RR>, zk: ZoneKeys, n: Str, t: u16, sig: RRSIGInfo)
    requires SameChecks(c, rrs, zk, n, t)
    ensures Covers(zk, n, t, sig) <==> exists k :: Candidate(c, rrs, n, t, sig, k)
  {
    if k :| Candidate(c, rrs, n, t, sig, k) {
      assert CandidateOf(zk, n, t, sig, k);
    }
    if Covers(zk, n, t, sig) {
      var k :| KeyWithTag(zk, sig.keyTag, k);
      assert CandidateOf(zk, n, t, sig, k);
    }
  }

  lemma AcceptedIsConfirmed(c: Crypto, rrs: seq<RR>, zk: ZoneKeys, n: Str, t: u16, sig: RRSIGInfo)
    requires SameChecks(c, rrs, zk, n, t) && Covers(zk, n, t, sig)
    ensures Accepted(c, zk, n, t, sig) <==> exists k :: Confirms(c, rrs, n, t, sig, k)
  {
    if k :| KeyWithTag(zk, sig.keyTag, k) && Verifies(c, zk, n, t, sig, k) {
      assert CandidateOf(zk, n, t, sig, k);
      assert Confirms(c, rrs, n, t, sig, k);
    }
    if k :| Confirms(c, rrs, n, t, sig, k) {
      assert CandidateOf(zk, n, t, sig, k) && Verifies(c, zk, n, t, sig, k);
    }
  }

  lemma RejectedIsRefuted(c: Crypto, rrs: seq<RR>, zk: ZoneKeys, n: Str, t: u16, sig: RRSIGInfo)
    requires SameChecks(c, rrs, zk, n, t) && Covers(zk, n, t, sig)
    ensures Rejected(c, zk, n, t, sig) <==> exists k :: Refutes(c, rrs, n, t, sig, k)
  {
    if k :| KeyWithTag(zk, sig.keyTag, k) && !Verifies(c, zk, n, t, sig, k) {
      assert CandidateOf(zk, n, t, sig, k);
      assert Refutes(c, rrs, n, t, sig, k);
    }
    if k :| Refutes(c, rrs, n, t, sig, k) {
      assert CandidateOf(zk, n, t, sig, k) && !Verifies(c, zk, n, t, sig, k);
    }
  }

  lemma AllAcceptedInRecords(c: Crypto, rrs: seq<RR>, zk: ZoneKeys, n: Str, t: u16)
    requires SameChecks(c, rrs, zk, n, t)
    ensures AllAccepted(c, zk, n, t) <==> AcceptedIn(c, rrs, n, t)
  {
    if AllAccepted(c, zk, n, t) {
      forall sig, k | Candidate(c, rrs, n, t, sig, k) ensures exists k' :: Confirms(c, rrs, n, t, sig, k') {
        CoversIsCandidate(c, rrs, zk, n, t, sig);
        AcceptedIsConfirmed(c, rrs, zk, n, t, sig);
      }
    }
    if AcceptedIn(c, rrs, n, t) {
      forall sig | Covers(zk, n, t, sig) ensures Accepted(c, zk, n, t, sig) {
        CoversIsCandidate(c, rrs, zk, n, t, sig);
        AcceptedIsConfirmed(c, rrs, zk, n, t, sig);
      }
    }
  }

  lemma SomeRejectedInRecords(c: Crypto, rrs: seq<RR>, zk: ZoneKeys, n: Str, t: u16)
    requires SameChecks(c, rrs, zk, n, t)
    ensures SomeRejected(c, zk, n, t) <==> RejectedIn(c, rrs, n, t)
  {
    if sig :| Covers(zk, n, t, sig) && Rejected(c, zk, n, t, sig) {
      RejectedIsRefuted(c, rrs, zk, n, t, sig);
    }
    if sig, k :| Refutes(c, rrs, n, t, sig, k) {
      CoversIsCandidate(c, rrs, zk, n, t, sig);
      RejectedIsRefuted(c, rrs, zk, n, t, sig);
    }
  }

  lemma TrackedInRecords(c: Crypto, apex: Str, rrs: seq<RR>, zk: ZoneKeys, n: Str, t: u16)
    requires SameChecks(c, rrs, zk, n, t) && Covered(zk, n, t) == RRsAt(rrs, n, t)
    ensures Tracked(zk, apex, n, t) <==> TrackedIn(c, apex, rrs, n, t)
  {
    if sig :| Covers(zk, n, t, sig) {
      CoversIsCandidate(c, rrs, zk, n, t, sig);
    }
    if sig, k :| Candidate(c, rrs, n, t, sig, k) {
      CoversIsCandidate(c, rrs, zk, n, t, sig);
    }
  }

  /** What the collection of a list of records says about a pair, the list says. */
  lemma UnitInRecords(c: Crypto, apex: Str, rrs: seq<RR>, zk: ZoneKeys, n: Str, t: u16)
    requires IsCollection(c, rrs, zk)
    ensures Tracked(zk, apex, n, t) <==> TrackedIn(c, apex, rrs, n, t)
    ensures AllAccepted(c, zk, n, t) <==> AcceptedIn(c, rrs, n, t)
    ensures SomeRejected(c, zk, n, t) <==> RejectedIn(c, rrs, n, t)
  {
    ChecksAgree(c, rrs, zk, n, t);
    assert ByType(zk.byType, n, t) == RRsAt(rrs, n, t);
    TrackedInRecords(c, apex, rrs, zk, n, t);
    AllAcceptedInRecords(c, rrs, zk, n, t);
    SomeRejectedInRecords(c, rrs, zk, n, t);
  }

  ghost predicate TrackedInSome(c: Crypto, apex: Str, units: seq<Msg>, keys: seq<RR>, n: Str, t: u16) {
    exists u :: u in units && TrackedIn(c, apex, WithKeys(u, keys), n, t)
  }

  ghost predicate AcceptedInSome(c: Crypto, apex: Str, units: seq<Msg>, keys: seq<RR>, n: Str, t: u16) {
    exists u :: u in units && TrackedIn(c, apex, WithKeys(u, keys), n, t) && AcceptedIn(c, WithKeys(u, keys), n, t)
  }

  ghost predicate RejectedInAll(c: Crypto, apex: Str, units: seq<Msg>, keys: seq<RR>, n: Str, t: u16) {
    forall u :: u in units && TrackedIn(c, apex, WithKeys(u, keys), n, t) ==> RejectedIn(c, WithKeys(u, keys), n, t)
  }

  lemma PairsInResponses(c: Crypto, apex: Str, units: seq<Msg>, keys: seq<RR>, n: Str, t: u16)
    ensures var us := UnitSet(c, units, keys);
            && (TrackedSomewhere(us, apex, n, t) <==> TrackedInSome(c, apex, units, keys, n, t))
            && (AcceptedSomewhere(c, us, apex, n, t) <==> AcceptedInSome(c, apex, units, keys, n, t))
            && (RejectedEverywhere(c, us, apex, n, t) <==> RejectedInAll(c, apex, units, keys, n, t))
  {
    var us := UnitSet(c, units, keys);
    forall u | u in units
      ensures UnitKeys(c, u, keys) in us
      ensures Tracked(UnitKeys(c, u, keys), apex, n, t) <==> TrackedIn(c, apex, WithKeys(u, keys), n, t)
      ensures AllAccepted(c, UnitKeys(c, u, keys), n, t) <==> AcceptedIn(c, WithKeys(u, keys), n, t)
      ensures SomeRejected(c, UnitKeys(c, u, keys), n, t) <==> RejectedIn(c, WithKeys(u, keys), n, t) {
      CollectedFiles(c, WithKeys(u, keys));
      UnitInRecords(c, apex, WithKeys(u, keys), UnitKeys(c, u, keys), n, t);
    }
  }

  /** A tally entry in terms of the responses. */
  ghost predicate EntryExact(c: Crypto, units: set<ZoneKeys>, apex: Str, k: Str, st: PairStat) {
    && k == StatsKey(st.name, st.rtype) && TrackedSomewhere(units, apex, st.name, st.rtype)
    && (st.passes > 0 || st.fails > 0)
    && (st.passes > 0 ==> AcceptedSomewhere(c, units, apex, st.name, st.rtype))
    && (st.passes == 0 ==> RejectedEverywhere(c, units, apex, st.name, st.rtype))
    && TagSomewhere(units, st.name, st.rtype, st.keyTag)
  }

  /** The tally has an entry for each tracked pair, and only right entries. */
  ghost predicate StatsExact(c: Crypto, units: set<ZoneKeys>, apex: Str, stats: map<Str, PairStat>) {
    && (forall k :: k in stats ==> EntryExact(c, units, apex, k, stats[k]))
    && (forall n, t: u16 :: TrackedSomewhere(units, apex, n, t) ==> StatsKey(n, t) in stats)
  }

  lemma EntryFromLog(c: Crypto, apex: Str, units: set<ZoneKeys>, log: set<Check>, k: Str, st: PairStat)
    requires EntryOk(log, k, st) && Justified(c, apex, units, log) && Complete(apex, units, log)
    ensures EntryExact(c, units, apex, k, st)
  {
    AggregationIsExact(c, apex, units, log, st.name, st.rtype);
    var zk, p :| Check(zk, st.name, st.rtype, p, st.keyTag) in log;
    assert Sound(c, apex, Check(zk, st.name, st.rtype, p, st.keyTag));
  }

  lemma StatsFromLog(c: Crypto, apex: Str, units: set<ZoneKeys>, stats: map<Str, PairStat>, log: set<Check>)
    requires Tallied(stats, log) && Justified(c, apex, units, log) && Complete(apex, units, log)
    ensures StatsExact(c, units, apex, stats)
  {
    forall k | k in stats ensures EntryExact(c, units, apex, k, stats[k]) {
      EntryFromLog(c, apex, units, log, k, stats[k]);
    }
    forall n, t: u16 | TrackedSomewhere(units, apex, n, t) ensures StatsKey(n, t) in stats {
      AggregationIsExact(c, apex, units, log, n, t);
      if StatsKey(n, t) !in stats {
        NotLogged(stats, log, n, t);
      }
    }
  }

  /** The first half of `verifySignatures`. */
  method CheckUnits(c: Crypto, apex: Str, units: seq<Msg>, keys: seq<RR>) returns (stats: map<Str, PairStat>)
    ensures StatsExact(c, UnitSet(c, units, keys), apex, stats)
    ensures KeepsFirstTags(c, apex, units, keys, stats)
  {
    ghost var log;
    stats, log := TallyUnits(c, apex, units, keys);
    StatsFromLog(c, apex, UnitSet(c, units, keys), stats, log);
  }

  // ----- the report -----

  ghost predicate Reported(out: seq<Issue>, name: Str, rtype: u16) {
    exists tag :: InvalidSignature010(name, rtype, tag) in out
  }

  ghost predicate Failed(c: Crypto, units: set<ZoneKeys>, apex: Str, n: Str, t: u16) {
    TrackedSomewhere(units, apex, n, t) && RejectedEverywhere(c, units, apex, n, t)
  }

  ghost predicate Passed(units: set<ZoneKeys>, apex: Str, out: seq<Issue>, n: Str, t: u16) {
    TrackedSomewhere(units, apex, n, t) && !Reported(out, n, t)
  }

  ghost function PassedKeys(stats: map<Str, PairStat>): set<Str> {
    set k | k in stats && stats[k].passes > 0
  }

  ghost function FailedKeys(stats: map<Str, PairStat>): set<Str> {
    set k | k in stats && stats[k].passes == 0 && stats[k].fails > 0
  }

  function FindingOf(st: PairStat): Issue {
    InvalidSignature010(st.name, st.rtype, st.keyTag)
  }

  ghost predicate FindingsOf(stats: map<Str, PairStat>, ks: set<Str>, out: seq<Issue>)
    requires ks <= stats.Keys
  {
    (forall i :: i in out <==> exists k :: k in ks && i == FindingOf(stats[k])) && |out| == |ks|
  }

  lemma FindingsNext(stats: map<Str, PairStat>, ks: set<Str>, out: seq<Issue>, k: Str)
    requires ks <= stats.Keys && k in stats && k !in ks && FindingsOf(stats, ks, out)
    ensures FindingsOf(stats, ks + {k}, out + [FindingOf(stats[k])])
  {
  }

  /** The findings are those of the failed entries, one each. */
  ghost predicate ReportsFailed(stats: map<Str, PairStat>, out: seq<Issue>) {
    FindingsOf(stats, FailedKeys(stats), out)
  }

  /** The loop has seen the entries outside `todo`. */
  ghost predicate InProgress(stats: map<Str, PairStat>, todo: set<Str>, out: seq<Issue>, verified: nat) {
    FindingsOf(stats, FailedKeys(stats) - todo, out) && verified == |PassedKeys(stats) - todo|
  }

  lemma KeysNext(ks: set<Str>, todo: set<Str>, k: Str)
    requires k in todo
    ensures k in ks ==> ks - (todo - {k}) == (ks - todo) + {k}
    ensures k !in ks ==> ks - (todo - {k}) == ks - todo
  {
  }

  lemma Progress(stats: map<Str, PairStat>, todo: set<Str>, out: seq<Issue>, verified: nat, k: Str)
    requires InProgress(stats, todo, out, verified) && k in todo && k in stats
    ensures var st := stats[k];
            InProgress(stats, todo - {k}, if st.passes == 0 && st.fails > 0 then out + [FindingOf(st)] else out,
                       if st.passes > 0 then verified + 1 else verified)
  {
    KeysNext(PassedKeys(stats), todo, k);
    KeysNext(FailedKeys(stats), todo, k);
    if k in FailedKeys(stats) {
      FindingsNext(stats, FailedKeys(stats) - todo, out, k);
    }
  }

  /** The second half of `verifySignatures`, over the tally in any order. */
  method Report(stats: map<Str, PairStat>) returns (out: seq<Issue>, verified: nat)
    ensures ReportsFailed(stats, out) && verified == |PassedKeys(stats)|
  {
    out, verified := [], 0;
    var todo := stats.Keys;
    assert PassedKeys(stats) - todo == {} && FailedKeys(stats) - todo == {};
    while todo != {}
      invariant todo <= stats.Keys && InProgress(stats, todo, out, verified)
      decreases todo
    {
      var k :| k in todo;
      Progress(stats, todo, out, verified, k);
      todo := todo - {k};
      if stats[k].passes > 0 {
        verified := verified + 1;
      } else if stats[k].fails > 0 {
        out := out + [FindingOf(stats[k])];
      }
    }
    assert PassedKeys(stats) - todo == PassedKeys(stats) && FailedKeys(stats) - todo == FailedKeys(stats);
  }

  // ----- the pairs behind the report -----

  ghost function TrackedPairs(units: set<ZoneKeys>, apex: Str): set<(Str, u16)> {
    set zk, n, i | zk in units && n in zk.rrsigs && 0 <= i < |zk.rrsigs[n]|
                   && Tracked(zk, apex, n, zk.rrsigs[n][i].typeCovered) :: (n, zk.rrsigs[n][i].typeCovered)
  }

  lemma PairIsTracked(units: set<ZoneKeys>, apex: Str, name: Str, rtype: u16)
    ensures (name, rtype) in TrackedPairs(units, apex) <==> TrackedSomewhere(units, apex, name, rtype)
  {
    if zk :| zk in units && Tracked(zk, apex, name, rtype) {
      var sig :| Covers(zk, name, rtype, sig);
      var i :| 0 <= i < |zk.rrsigs[name]| && zk.rrsigs[name][i] == sig;
      assert (name, zk.rrsigs[name][i].typeCovered) in TrackedPairs(units, apex);
    }
  }

  /** The pair behind a tally entry. */
  function PairOf(st: PairStat): (Str, u16) {
    (st.name, st.rtype)
  }

  ghost function PairsOf(stats: map<Str, PairStat>, ks: set<Str>): set<(Str, u16)>
    requires ks <= stats.Keys
  {
    set k | k in ks :: PairOf(stats[k])
  }

  /** Different entries are about different pairs. */
  lemma {:induction false} PairsOfSize(stats: map<Str, PairStat>, ks: set<Str>)
    requires ks <= stats.Keys && forall k :: k in stats ==> k == StatsKey(stats[k].name, stats[k].rtype)
    ensures |PairsOf(stats, ks)| == |ks|
    decreases ks
  {
    if ks != {} {
      var k :| k in ks;
      PairsOfSize(stats, ks - {k});
      assert PairsOf(stats, ks) == PairsOf(stats, ks - {k}) + {PairOf(stats[k])};
      forall k' | k' in ks - {k} ensures PairOf(stats[k']) != PairOf(stats[k]) {
        assert StatsKey(stats[k'].name, stats[k'].rtype) != StatsKey(stats[k].name, stats[k].rtype);
      }
    }
  }

  lemma EntryIsPair(c: Crypto, units: set<ZoneKeys>, apex: Str, stats: map<Str, PairStat>, n: Str, t: u16)
    requires StatsExact(c, units, apex, stats) && StatsKey(n, t) in stats
    ensures PairOf(stats[StatsKey(n, t)]) == (n, t)
  {
    var st := stats[StatsKey(n, t)];
    StatsKeyIsInjective(st.name, st.rtype, n, t);
  }

  lemma PairsAreTracked(c: Crypto, units: set<ZoneKeys>, apex: Str, stats: map<Str, PairStat>)
    requires StatsExact(c, units, apex, stats)
    ensures PairsOf(stats, stats.Keys) == TrackedPairs(units, apex)
  {
    forall n, t: u16 ensures (n, t) in PairsOf(stats, stats.Keys) <==> (n, t) in TrackedPairs(units, apex) {
      PairIsTracked(units, apex, n, t);
      if StatsKey(n, t) in stats {
        EntryIsPair(c, units, apex, stats, n, t);
      }
    }
    forall p ensures p in PairsOf(stats, stats.Keys) <==> p in TrackedPairs(units, apex) {
      assert p == (p.0, p.1);
    }
  }

  lemma KeysSplit(stats: map<Str, PairStat>)
    requires forall k :: k in stats ==> stats[k].passes > 0 || stats[k].fails > 0
    ensures |PassedKeys(stats)| + |FailedKeys(stats)| == |stats.Keys|
  {
    assert stats.Keys == PassedKeys(stats) + FailedKeys(stats);
    assert PassedKeys(stats) !! FailedKeys(stats);
  }

  /** Entries and tracked pairs correspond one to one. */
  lemma PairsAccounted(c: Crypto, units: set<ZoneKeys>, apex: Str, stats: map<Str, PairStat>)
    requires StatsExact(c, units, apex, stats)
    ensures |PassedKeys(stats)| + |FailedKeys(stats)| == |TrackedPairs(units, apex)|
  {
    PairsAreTracked(c, units, apex, stats);
    PairsOfSize(stats, stats.Keys);
    KeysSplit(stats);
  }

  lemma PairVerdict(c: Crypto, units: set<ZoneKeys>, apex: Str, stats: map<Str, PairStat>, out: seq<Issue>, n: Str,
                    t: u16)
    requires StatsExact(c, units, apex, stats) && ReportsFailed(stats, out)
    ensures Reported(out, n, t) ==> Failed(c, units, apex, n, t)
    ensures Passed(units, apex, out, n, t) ==> AcceptedSomewhere(c, units, apex, n, t)
  {
    if Reported(out, n, t) {
      var tag :| InvalidSignature010(n, t, tag) in out;
      var k :| k in FailedKeys(stats) && InvalidSignature010(n, t, tag) == FindingOf(stats[k]);
      assert EntryExact(c, units, apex, k, stats[k]);
    }
    if Passed(units, apex, out, n, t) {
      var k := StatsKey(n, t);
      EntryIsPair(c, units, apex, stats, n, t);
      assert EntryExact(c, units, apex, k, stats[k]);
      assert k in FailedKeys(stats) ==> FindingOf(stats[k]) in out;
    }
  }

  /** What a caller of `verifySignatures` learns. */
  ghost predicate TallyOutcome(c: Crypto, apex: Str, units: set<ZoneKeys>, out: seq<Issue>, verified: nat) {
    && (forall i :: i in out ==> i.InvalidSignature010? && TagSomewhere(units, i.name, i.rtype, i.keyTag))
    && (forall n, t: u16 :: Reported(out, n, t) ==> Failed(c, units, apex, n, t))
    && (forall n, t: u16 :: Passed(units, apex, out, n, t) ==> AcceptedSomewhere(c, units, apex, n, t))
    && |out| + verified == |TrackedPairs(units, apex)|
    && (out != [] ==> exists n, t: u16 :: Reported(out, n, t))
    && (verified > 0 ==> exists n, t: u16 :: AcceptedSomewhere(c, units, apex, n, t))
  }

  lemma FindingIsReported(stats: map<Str, PairStat>, out: seq<Issue>)
    requires ReportsFailed(stats, out) && out != []
    ensures exists n, t: u16 :: Reported(out, n, t)
  {
    var i := out[0];
    assert i in out;
    var k :| k in FailedKeys(stats) && i == FindingOf(stats[k]);
    assert Reported(out, i.name, i.rtype);
  }

  lemma PassIsAccepted(c: Crypto, units: set<ZoneKeys>, apex: Str, stats: map<Str, PairStat>)
    requires StatsExact(c, units, apex, stats) && PassedKeys(stats) != {}
    ensures exists n, t: u16 :: AcceptedSomewhere(c, units, apex, n, t)
  {
    var k :| k in PassedKeys(stats);
    assert EntryExact(c, units, apex, k, stats[k]);
  }

  lemma TagsAreReal(c: Crypto, units: set<ZoneKeys>, apex: Str, stats: map<Str, PairStat>, out: seq<Issue>, i: Issue)
    requires StatsExact(c, units, apex, stats) && ReportsFailed(stats, out) && i in out
    ensures i.InvalidSignature010? && TagSomewhere(units, i.name, i.rtype, i.keyTag)
    ensures TagOf(stats, i.name, i.rtype) == Some(i.keyTag)
  {
    var k :| k in FailedKeys(stats) && i == FindingOf(stats[k]);
    assert EntryExact(c, units, apex, k, stats[k]);
  }

  /** Each finding carries the tag of the first signature checked for its pair. */
  ghost predicate NamesFirstTags(c: Crypto, apex: Str, units: seq<Msg>, keys: seq<RR>, out: seq<Issue>) {
    forall i :: i in out ==> i.InvalidSignature010? && FirstTag(c, apex, units, keys, i.name, i.rtype) == Some(i.keyTag)
  }

  /** A reported pair is refuted in every response that tracks it; a tracked pair
      that is not reported is confirmed in one. */
  ghost predicate OutcomeInResponses(c: Crypto, apex: Str, units: seq<Msg>, keys: seq<RR>, out: seq<Issue>) {
    && (forall n, t: u16 :: Reported(out, n, t)
                            ==> TrackedInSome(c, apex, units, keys, n, t) && RejectedInAll(c, apex, units, keys, n, t))
    && (forall n, t: u16 :: TrackedInSome(c, apex, units, keys, n, t) && !Reported(out, n, t)
                            ==> AcceptedInSome(c, apex, units, keys, n, t))
  }

  /** `verifySignatures`. Exactly the tracked pairs are accounted for, each
      once, as a finding or in the count of verified pairs; a finding means
      rejection in every unit that tracks the pair, silence acceptance in one. */
  method VerifySignatures(c: Crypto, zone: Str, units: seq<Msg>, keys: seq<RR>)
    returns (out: seq<Issue>, verified: nat)
    ensures TallyOutcome(c, Canon(zone), UnitSet(c, units, keys), out, verified)
    ensures NamesFirstTags(c, Canon(zone), units, keys, out)
    ensures OutcomeInResponses(c, Canon(zone), units, keys, out)
  {
    var apex := Canon(zone);
    var stats := CheckUnits(c, apex, units, keys);
    out, verified := Report(stats);
    TallyHolds(c, UnitSet(c, units, keys), apex, stats, out, verified);
    TagsHold(c, UnitSet(c, units, keys), apex, units, keys, stats, out);
    OutcomeHolds(c, apex, units, keys, out, verified);
  }

  lemma OutcomeHolds(c: Crypto, apex: Str, units: seq<Msg>, keys: seq<RR>, out: seq<Issue>, verified: nat)
    requires TallyOutcome(c, apex, UnitSet(c, units, keys), out, verified)
    ensures OutcomeInResponses(c, apex, units, keys, out)
  {
    forall n, t: u16
      ensures Reported(out, n, t)
              ==> TrackedInSome(c, apex, units, keys, n, t) && RejectedInAll(c, apex, units, keys, n, t)
      ensures TrackedInSome(c, apex, units, keys, n, t) && !Reported(out, n, t)
              ==> AcceptedInSome(c, apex, units, keys, n, t) {
      PairOutcome(c, apex, units, keys, UnitSet(c, units, keys), out, n, t);
    }
  }

  lemma PairOutcome(c: Crypto, apex: Str, units: seq<Msg>, keys: seq<RR>, us: set<ZoneKeys>, out: seq<Issue>, n: Str,
                    t: u16)
    requires us == UnitSet(c, units, keys)
    requires Reported(out, n, t) ==> Failed(c, us, apex, n, t)
    requires Passed(us, apex, out, n, t) ==> AcceptedSomewhere(c, us, apex, n, t)
    ensures Reported(out, n, t)
            ==> TrackedInSome(c, apex, units, keys, n, t) && RejectedInAll(c, apex, units, keys, n, t)
    ensures TrackedInSome(c, apex, units, keys, n, t) && !Reported(out, n, t)
            ==> AcceptedInSome(c, apex, units, keys, n, t)
  {
    PairsInResponses(c, apex, units, keys, n, t);
  }

  lemma TallyHolds(c: Crypto, us: set<ZoneKeys>, apex: Str, stats: map<Str, PairStat>, out: seq<Issue>, verified: nat)
    requires StatsExact(c, us, apex, stats) && ReportsFailed(stats, out) && verified == |PassedKeys(stats)|
    ensures TallyOutcome(c, apex, us, out, verified)
  {
    PairsAccounted(c, us, apex, stats);
    if out != [] {
      FindingIsReported(stats, out);
    }
    if verified > 0 {
      PassIsAccepted(c, us, apex, stats);
    }
    forall n, t: u16 ensures Reported(out, n, t) ==> Failed(c, us, apex, n, t)
      ensures Passed(us, apex, out, n, t) ==> AcceptedSomewhere(c, us, apex, n, t) {
      PairVerdict(c, us, apex, stats, out, n, t);
    }
    forall i | i in out ensures i.InvalidSignature010? && TagSomewhere(us, i.name, i.rtype, i.keyTag) {
      TagsAreReal(c, us, apex, stats, out, i);
    }
  }

  lemma TagsHold(c: Crypto, us: set<ZoneKeys>, apex: Str, units: seq<Msg>, keys: seq<RR>, stats: map<Str, PairStat>,
                 out: seq<Issue>)
    requires StatsExact(c, us, apex, stats) && ReportsFailed(stats, out)
    requires KeepsFirstTags(c, apex, units, keys, stats)
    ensures NamesFirstTags(c, apex, units, keys, out)
  {
    forall i | i in out
      ensures i.InvalidSignature010? && FirstTag(c, apex, units, keys, i.name, i.rtype) == Some(i.keyTag) {
      TagsAreReal(c, us, apex, stats, out, i);
      TagIsFirst(c, apex, units, keys, stats, i.name, i.rtype);
    }
  }

  lemma TagIsFirst(c: Crypto, apex: Str, units: seq<Msg>, keys: seq<RR>, stats: map<Str, PairStat>, n: Str, t: u16)
    requires KeepsFirstTags(c, apex, units, keys, stats)
    ensures TagOf(stats, n, t) == FirstTag(c, apex, units, keys, n, t)
  {
  }

  /** With unique key tags in every unit the rule is an equivalence: a pair is
      reported if and only if it is tracked and some covering signature is
      rejected wherever it is tracked. Units enter as a set, so their order
      does not matter. */
  lemma ReportedIffRejectedEverywhere(c: Crypto, apex: Str, units: set<ZoneKeys>, out: seq<Issue>, verified: nat,
                                      n: Str, t: u16)
    requires TallyOutcome(c, apex, units, out, verified)
    requires forall zk :: zk in units ==> UniqueTags(zk)
    ensures Reported(out, n, t) <==> Failed(c, units, apex, n, t)
  {
    if Passed(units, apex, out, n, t) {
      var zk :| zk in units && Tracked(zk, apex, n, t) && AllAccepted(c, zk, n, t);
      OutcomeIsDetermined(c, zk, n, t);
    }
  }
}
