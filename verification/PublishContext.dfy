/** The publish context: a string map written by the Python controller when a volume is published
    and read by the Go node plugin when it is staged. */
module PublishContext {
  import opened Options
  import opened Text

  const LUN_KEY := "PUBLISH_CONTEXT_LUN"
  const CONNECTIVITY_KEY := "PUBLISH_CONTEXT_CONNECTIVITY"
  const ARRAY_IQN_KEY := "PUBLISH_CONTEXT_ARRAY_IQN"
  const FC_INITIATORS_KEY := "PUBLISH_CONTEXT_ARRAY_FC_INITIATORS"
  const SEPARATOR: char := ','
  const ISCSI := "iscsi"
  const FC := "fc"

  type Context = map<string, string>

  // ---------- writing, in the controller ----------

  datatype Target = Target(iqn: string, ips: seq<string>)

  /** The iSCSI targets are the entries of a dictionary, in its order. */
  datatype ArrayInitiators = Iscsi(targets: seq<Target>) | Fc(wwns: seq<string>)

  function Iqns(targets: seq<Target>): seq<string> {
    seq(|targets|, k requires 0 <= k < |targets| => targets[k].iqn)
  }

  /** A dictionary has each key once. */
  ghost predicate DistinctIqns(targets: seq<Target>) {
    forall j, k | 0 <= j < k < |targets| :: targets[j].iqn != targets[k].iqn
  }

  /** One entry for each target, later ones winning. */
  function WithTargets(context: Context, targets: seq<Target>): Context {
    if targets == [] then context
    else
      var last := targets[|targets| - 1];
      WithTargets(context, targets[..|targets| - 1])[last.iqn := Join(last.ips, [SEPARATOR])]
  }

  function ContextOf(lun: nat, initiators: ArrayInitiators): Context {
    match initiators
    case Iscsi(targets) =>
      WithTargets(map[LUN_KEY := Numeral(lun, 10), CONNECTIVITY_KEY := ISCSI], targets)
        [ARRAY_IQN_KEY := Join(Iqns(targets), [SEPARATOR])]
    case Fc(wwns) =>
      map[LUN_KEY := Numeral(lun, 10), CONNECTIVITY_KEY := FC, FC_INITIATORS_KEY := Join(wwns, [SEPARATOR])]
  }

  method GeneratePublishContext(lun: nat, initiators: ArrayInitiators) returns (context: Context)
    ensures context == ContextOf(lun, initiators)
  {
    context := map[LUN_KEY := Numeral(lun, 10), CONNECTIVITY_KEY := if initiators.Iscsi? then ISCSI else FC];
    if initiators.Iscsi? {
      var targets := initiators.targets;
      ghost var base := context;
      for k := 0 to |targets|
        invariant context == WithTargets(base, targets[..k])
      {
        assert targets[..k + 1][..k] == targets[..k];
        context := context[targets[k].iqn := Join(targets[k].ips, [SEPARATOR])];
      }
      assert targets[..|targets|] == targets;
      context := context[ARRAY_IQN_KEY := Join(Iqns(targets), [SEPARATOR])];
    } else {
      context := context[FC_INITIATORS_KEY := Join(initiators.wwns, [SEPARATOR])];
    }
  }

  // ---------- reading, on the node ----------

  /** The IPs of each array initiator; None is Go's nil list. */
  datatype Info = Info(connectivity: string, lun: int, ips: map<string, Option<seq<string>>>)

  const TWO_TO_63: int := 0x8000_0000_0000_0000

  /** Decimal digits with an optional sign, within 64 bits. */
  function Atoi(s: string): Option<int> {
    var signed := s != "" && (s[0] == '-' || s[0] == '+');
    var digits := if signed then s[1..] else s;
    if !IsNumeral(digits, 10) then None
    else
      var magnitude: int := ParseNumeral(digits, 10);
      var value := if signed && s[0] == '-' then -magnitude else magnitude;
      if -TWO_TO_63 <= value < TWO_TO_63 then Some(value) else None
  }

  /** A missing key reads as the empty string. */
  function Lookup(context: Context, key: string): string {
    if key in context then context[key] else ""
  }

  function IscsiIps(context: Context, iqns: seq<string>): map<string, Option<seq<string>>> {
    map iqn | iqn in iqns && iqn in context :: Some(Split(context[iqn], SEPARATOR))
  }

  function FcIps(wwns: seq<string>): map<string, Option<seq<string>>> {
    map wwn | wwn in wwns :: None
  }

  function InfoOf(context: Context): Option<Info> {
    var lun := Atoi(Lookup(context, LUN_KEY));
    var connectivity := Lookup(context, CONNECTIVITY_KEY);
    if lun == None then None
    else if connectivity == ISCSI then
      Some(Info(ISCSI, lun.value, IscsiIps(context, Split(Lookup(context, ARRAY_IQN_KEY), SEPARATOR))))
    else if connectivity == FC then
      Some(Info(FC, lun.value, FcIps(Split(Lookup(context, FC_INITIATORS_KEY), SEPARATOR))))
    else Some(Info(connectivity, lun.value, map[]))
  }

  method GetInfoFromPublishContext(context: Context) returns (info: Option<Info>)
    ensures info == InfoOf(context)
  {
    var ipsByArrayInitiator: map<string, Option<seq<string>>> := map[];
    var lun := Atoi(Lookup(context, LUN_KEY));
    if lun == None {
      return None;
    }
    var connectivity := Lookup(context, CONNECTIVITY_KEY);
    if connectivity == ISCSI {
      var iqns := Split(Lookup(context, ARRAY_IQN_KEY), SEPARATOR);
      for k := 0 to |iqns|
        invariant ipsByArrayInitiator == IscsiIps(context, iqns[..k])
      {
        assert iqns[..k + 1] == iqns[..k] + [iqns[k]];
        if iqns[k] in context {
          ipsByArrayInitiator := ipsByArrayInitiator[iqns[k] := Some(Split(context[iqns[k]], SEPARATOR))];
        }
      }
      assert iqns[..|iqns|] == iqns;
    }
    if connectivity == FC {
      var wwns := Split(Lookup(context, FC_INITIATORS_KEY), SEPARATOR);
      for k := 0 to |wwns|
        invariant ipsByArrayInitiator == FcIps(wwns[..k])
      {
        assert wwns[..k + 1] == wwns[..k] + [wwns[k]];
        ipsByArrayInitiator := ipsByArrayInitiator[wwns[k] := None];
      }
      assert wwns[..|wwns|] == wwns;
    }
    return Some(Info(connectivity, lun.value, ipsByArrayInitiator));
  }

  // ---------- the round trip ----------

  /** A decimal numeral reads back exactly when it fits 64 bits. */
  lemma AtoiOfNumeral(n: nat)
    ensures Atoi(Numeral(n, 10)) == if n < TWO_TO_63 then Some(n) else None
  {
    ParseOfNumeral(n, 10);
    var s := Numeral(n, 10);
    assert s[0] in s;
  }

  lemma {:induction false} TargetValue(context: Context, targets: seq<Target>, k: nat)
    requires DistinctIqns(targets) && k < |targets|
    ensures targets[k].iqn in WithTargets(context, targets)
    ensures WithTargets(context, targets)[targets[k].iqn] == Join(targets[k].ips, [SEPARATOR])
  {
    var n := |targets| - 1;
    if k < n {
      TargetValue(context, targets[..n], k);
    }
  }

  lemma {:induction false} OtherValue(context: Context, targets: seq<Target>, key: string)
    requires forall t | t in targets :: t.iqn != key
    ensures key in WithTargets(context, targets) <==> key in context
    ensures Lookup(WithTargets(context, targets), key) == Lookup(context, key)
  {
    if targets != [] {
      assert targets[|targets| - 1] in targets;
      OtherValue(context, targets[..|targets| - 1], key);
    }
  }

  /** The initiators as the node should learn them. */
  function IpsOf(targets: seq<Target>): map<string, Option<seq<string>>>
    requires DistinctIqns(targets)
  {
    map k | 0 <= k < |targets| :: targets[k].iqn := Some(targets[k].ips)
  }

  /** What a key of the context holds when the targets may use it too. */
  ghost function EntryOr(targets: seq<Target>, key: string, other: string): string {
    if k: nat :| k < |targets| && targets[k].iqn == key then Join(targets[k].ips, [SEPARATOR]) else other
  }

  /** The target's name holds no separator, and its IPs survive being written: a non-empty list of
      separator-free texts, or, under the name that the list of names takes over, that very list. */
  ghost predicate CleanTarget(target: Target, iqns: seq<string>) {
    && SEPARATOR !in target.iqn
    && if target.iqn == ARRAY_IQN_KEY then target.ips == iqns
       else target.ips != [] && NoneContains(target.ips, SEPARATOR)
  }

  lemma EntryOfTargets(context: Context, targets: seq<Target>, key: string)
    requires DistinctIqns(targets)
    ensures Lookup(WithTargets(context, targets), key) == EntryOr(targets, key, Lookup(context, key))
  {
    if k: nat :| k < |targets| && targets[k].iqn == key {
      TargetValue(context, targets, k);
      assert forall j: nat | j < |targets| && targets[j].iqn == key :: j == k;
    } else {
      OtherValue(context, targets, key);
    }
  }

  lemma IscsiEntries(lun: nat, targets: seq<Target>)
    requires DistinctIqns(targets)
    ensures var context := ContextOf(lun, Iscsi(targets));
            && Lookup(context, LUN_KEY) == EntryOr(targets, LUN_KEY, Numeral(lun, 10))
            && Lookup(context, CONNECTIVITY_KEY) == EntryOr(targets, CONNECTIVITY_KEY, ISCSI)
            && Lookup(context, ARRAY_IQN_KEY) == Join(Iqns(targets), [SEPARATOR])
  {
    var base: Context := map[LUN_KEY := Numeral(lun, 10), CONNECTIVITY_KEY := ISCSI];
    EntryOfTargets(base, targets, LUN_KEY);
    EntryOfTargets(base, targets, CONNECTIVITY_KEY);
  }

  lemma TargetEntry(lun: nat, targets: seq<Target>, k: nat)
    requires DistinctIqns(targets) && k < |targets|
    ensures targets[k].iqn in ContextOf(lun, Iscsi(targets))
    ensures ContextOf(lun, Iscsi(targets))[targets[k].iqn]
         == Join(if targets[k].iqn == ARRAY_IQN_KEY then Iqns(targets) else targets[k].ips, [SEPARATOR])
  {
    TargetValue(map[LUN_KEY := Numeral(lun, 10), CONNECTIVITY_KEY := ISCSI], targets, k);
  }

  function ReadIqns(targets: seq<Target>): (iqns: seq<string>)
    ensures NoneContains(iqns, SEPARATOR)
  {
    Split(Join(Iqns(targets), [SEPARATOR]), SEPARATOR)
  }

  /** The names read back as written exactly when none holds the separator and there is one. */
  lemma IqnsReadBack(targets: seq<Target>)
    ensures ReadIqns(targets) == Iqns(targets) <==> targets != [] && NoneContains(Iqns(targets), SEPARATOR)
  {
    SplitUndoesJoin(Iqns(targets), SEPARATOR);
  }

  lemma TargetIpsReadBack(lun: nat, targets: seq<Target>, k: nat)
    requires DistinctIqns(targets) && k < |targets| && NoneContains(Iqns(targets), SEPARATOR)
    ensures var ips := IscsiIps(ContextOf(lun, Iscsi(targets)), ReadIqns(targets));
            && targets[k].iqn in ips
            && (ips[targets[k].iqn] == Some(targets[k].ips) <==> CleanTarget(targets[k], Iqns(targets)))
  {
    TargetEntry(lun, targets, k);
    IqnsReadBack(targets);
    assert Iqns(targets)[k] == targets[k].iqn;
    SplitUndoesJoin(targets[k].ips, SEPARATOR);
  }

  lemma CleanMeansSeparatorFree(targets: seq<Target>)
    requires forall t | t in targets :: CleanTarget(t, Iqns(targets))
    ensures NoneContains(Iqns(targets), SEPARATOR)
  {
    forall k | 0 <= k < |targets|
      ensures SEPARATOR !in Iqns(targets)[k]
    {
      assert targets[k] in targets;
    }
  }

  lemma OnlyTargetsRead(lun: nat, targets: seq<Target>)
    requires NoneContains(Iqns(targets), SEPARATOR)
    ensures var context := ContextOf(lun, Iscsi(targets));
            forall iqn | iqn in ReadIqns(targets) && iqn in context :: iqn in Iqns(targets)
  {
    IqnsReadBack(targets);
  }

  lemma AllAndOnly(ips: map<string, Option<seq<string>>>, targets: seq<Target>)
    requires DistinctIqns(targets)
    requires forall iqn | iqn in ips :: iqn in Iqns(targets)
    requires forall k | 0 <= k < |targets| :: targets[k].iqn in ips && ips[targets[k].iqn] == Some(targets[k].ips)
    ensures ips == IpsOf(targets)
  {
    assert ips.Keys == IpsOf(targets).Keys;
  }

  lemma CleanIpsReadBack(lun: nat, targets: seq<Target>)
    requires DistinctIqns(targets) && forall t | t in targets :: CleanTarget(t, Iqns(targets))
    ensures IscsiIps(ContextOf(lun, Iscsi(targets)), ReadIqns(targets)) == IpsOf(targets)
  {
    var ips := IscsiIps(ContextOf(lun, Iscsi(targets)), ReadIqns(targets));
    CleanMeansSeparatorFree(targets);
    forall k | 0 <= k < |targets|
      ensures targets[k].iqn in ips && ips[targets[k].iqn] == Some(targets[k].ips)
    {
      assert targets[k] in targets;
      TargetIpsReadBack(lun, targets, k);
    }
    OnlyTargetsRead(lun, targets);
    AllAndOnly(ips, targets);
  }

  lemma IpsReadBackAreClean(lun: nat, targets: seq<Target>, k: nat)
    requires DistinctIqns(targets) && k < |targets|
    requires IscsiIps(ContextOf(lun, Iscsi(targets)), ReadIqns(targets)) == IpsOf(targets)
    ensures CleanTarget(targets[k], Iqns(targets))
  {
    var ips := IscsiIps(ContextOf(lun, Iscsi(targets)), ReadIqns(targets));
    forall j | 0 <= j < |targets|
      ensures SEPARATOR !in Iqns(targets)[j]
    {
      assert targets[j].iqn in IpsOf(targets);
      assert targets[j].iqn in ReadIqns(targets);
    }
    assert targets[k].iqn in IpsOf(targets);
    assert ips[targets[k].iqn] == Some(targets[k].ips);
    TargetIpsReadBack(lun, targets, k);
  }

  /** What the controller writes for iSCSI reads back as the same connectivity, LUN and IPs of each
      target, exactly when every target is clean and the two entries that targets can take over, the
      LUN and the connectivity, still say what they should: the LUN in 64 bits. */
  lemma IscsiContextRoundTrip(lun: nat, targets: seq<Target>)
    requires DistinctIqns(targets)
    ensures InfoOf(ContextOf(lun, Iscsi(targets))) == Some(Info(ISCSI, lun, IpsOf(targets))) <==>
            && Atoi(EntryOr(targets, LUN_KEY, Numeral(lun, 10))) == Some(lun)
            && EntryOr(targets, CONNECTIVITY_KEY, ISCSI) == ISCSI
            && forall t | t in targets :: CleanTarget(t, Iqns(targets))
  {
    var context := ContextOf(lun, Iscsi(targets));
    IscsiEntries(lun, targets);
    if forall t | t in targets :: CleanTarget(t, Iqns(targets)) {
      CleanIpsReadBack(lun, targets);
    }
    if IscsiIps(context, ReadIqns(targets)) == IpsOf(targets) {
      forall t | t in targets
        ensures CleanTarget(t, Iqns(targets))
      {
        var k :| 0 <= k < |targets| && targets[k] == t;
        IpsReadBackAreClean(lun, targets, k);
      }
    }
  }

  /** With names of their own, targets need no more than a LUN of 64 bits, separator-free texts and
      some IP each. */
  lemma OrdinaryTargetsRoundTrip(lun: nat, targets: seq<Target>)
    requires DistinctIqns(targets)
    requires forall t | t in targets :: t.iqn != LUN_KEY && t.iqn != CONNECTIVITY_KEY && t.iqn != ARRAY_IQN_KEY
    ensures InfoOf(ContextOf(lun, Iscsi(targets))) == Some(Info(ISCSI, lun, IpsOf(targets))) <==>
            lun < TWO_TO_63 && forall t | t in targets ::
              SEPARATOR !in t.iqn && t.ips != [] && NoneContains(t.ips, SEPARATOR)
  {
    IscsiContextRoundTrip(lun, targets);
    AtoiOfNumeral(lun);
    assert forall k | 0 <= k < |targets| :: targets[k] in targets;
  }

  /** The same for Fibre Channel, whose initiators are a plain list: it must not be empty. */
  lemma FcContextRoundTrip(lun: nat, wwns: seq<string>)
    ensures InfoOf(ContextOf(lun, Fc(wwns))) == Some(Info(FC, lun, FcIps(wwns))) <==>
            lun < TWO_TO_63 && wwns != [] && NoneContains(wwns, SEPARATOR)
  {
    AtoiOfNumeral(lun);
    var read := Split(Join(wwns, [SEPARATOR]), SEPARATOR);
    if wwns != [] && NoneContains(wwns, SEPARATOR) {
      SplitOfJoin(wwns, SEPARATOR);
    }
    if FcIps(read) == FcIps(wwns) {
      assert read[0] in FcIps(read);
      forall wwn | wwn in wwns
        ensures SEPARATOR !in wwn
      {
        assert wwn in FcIps(wwns);
      }
    }
  }

  /** A target that bears the LUN key's name replaces the LUN the node reads. */
  lemma ReservedNameHidesTheLun(lun: nat, targets: seq<Target>, k: nat)
    requires DistinctIqns(targets) && k < |targets| && targets[k].iqn == LUN_KEY
    ensures var info := InfoOf(ContextOf(lun, Iscsi(targets)));
            if info == None then Atoi(Join(targets[k].ips, [SEPARATOR])) == None
            else Atoi(Join(targets[k].ips, [SEPARATOR])) == Some(info.value.lun)
  {
    TargetValue(map[LUN_KEY := Numeral(lun, 10), CONNECTIVITY_KEY := ISCSI], targets, k);
  }

  // ---------- reading any context ----------

  /** What is read from a context, entry by entry: nothing without a LUN that is a number; else the
      connectivity as it stands, with the IPs of every listed iqn that has an entry, or with every
      listed Fibre Channel initiator, or with no initiator at all. */
  lemma ReadsEntryByEntry(context: Context)
    ensures
      var info := InfoOf(context);
      var connectivity := if "PUBLISH_CONTEXT_CONNECTIVITY" in context
                          then context["PUBLISH_CONTEXT_CONNECTIVITY"] else "";
      && (info == None <==>
            "PUBLISH_CONTEXT_LUN" !in context || Atoi(context["PUBLISH_CONTEXT_LUN"]) == None)
      && (info.Some? ==>
            && Some(info.value.lun) == Atoi(context["PUBLISH_CONTEXT_LUN"])
            && info.value.connectivity == connectivity
            && (connectivity == "iscsi" ==>
                  var iqns := Split(Lookup(context, "PUBLISH_CONTEXT_ARRAY_IQN"), ',');
                  && (forall iqn :: iqn in info.value.ips <==> iqn in iqns && iqn in context)
                  && forall iqn | iqn in info.value.ips ::
                       info.value.ips[iqn] == Some(Split(context[iqn], ',')))
            && (connectivity == "fc" ==>
                  var wwns := Split(Lookup(context, "PUBLISH_CONTEXT_ARRAY_FC_INITIATORS"), ',');
                  && (forall wwn :: wwn in info.value.ips <==> wwn in wwns)
                  && forall wwn | wwn in info.value.ips :: info.value.ips[wwn] == None)
            && (connectivity != "iscsi" && connectivity != "fc" ==> info.value.ips == map[]))
  {
    assert !IsNumeral("", 10);
  }

  /** A sign in front of decimal digits counts; anything else that is no digit makes it no number. */
  lemma AtoiOfSigned(n: nat)
    ensures var value: int := n; Atoi("-" + Numeral(n, 10)) == if n <= TWO_TO_63 then Some(-value) else None
    ensures Atoi("+" + Numeral(n, 10)) == Atoi(Numeral(n, 10))
    ensures Atoi("") == None
  {
    ParseOfNumeral(n, 10);
    var s := Numeral(n, 10);
    assert ("-" + s)[1..] == s && ("+" + s)[1..] == s;
    AtoiOfNumeral(n);
    assert !IsNumeral("", 10);
  }

  /** The keys that are written. */
  lemma WritesTheseKeys(lun: nat, wwns: seq<string>, targets: seq<Target>)
    ensures ContextOf(lun, Fc(wwns))
            == map["PUBLISH_CONTEXT_LUN" := Numeral(lun, 10), "PUBLISH_CONTEXT_CONNECTIVITY" := "fc",
                   "PUBLISH_CONTEXT_ARRAY_FC_INITIATORS" := Join(wwns, ",")]
    ensures "PUBLISH_CONTEXT_ARRAY_IQN" in ContextOf(lun, Iscsi(targets))
    ensures ContextOf(lun, Iscsi(targets))["PUBLISH_CONTEXT_ARRAY_IQN"] == Join(Iqns(targets), ",")
  {
    assert [SEPARATOR] == ",";
  }
}
