/**
 Fan-out markers. A marker member is a lane prefix, ending in a bar, followed by the id of the
 platform-lane entry that carries the fanned-out task. The module proves what every run keeps
 as long as no unmarked delete takes a marked entry, and that such a delete always breaks it.
 */
module FanoutMarkers {
  import opened Results
  import opened StreamIds
  import opened TaskStreams
  import opened GroupRetirement
  import opened StreamRuns

  predicate IsLanePrefix(prefix: string) {
    prefix != "" && prefix[|prefix| - 1] == '|'
  }

  function AfterLastBar(s: string): (t: string)
    ensures '|' !in t
  {
    if '|' in s then AfterLastBar(s[1..]) else s
  }

  /** The member was built from a lane prefix and this id. */
  predicate Names(member: string, id: Id) {
    '|' in member && AfterLastBar(member) == RenderId(id)
  }

  ghost predicate Marked(s: Store, id: Id) {
    exists key | key in s.markers :: exists member | member in s.markers[key] :: Names(member, id)
  }

  lemma {:induction false} MemberSplits(prefix: string, t: string)
    requires IsLanePrefix(prefix) && '|' !in t
    ensures '|' in prefix + t && AfterLastBar(prefix + t) == t
  {
    assert (prefix + t)[|prefix| - 1] == '|';
    if |prefix| == 1 {
      assert (prefix + t)[1..] == t;
    } else {
      MemberSplits(prefix[1..], t);
      assert (prefix + t)[1..] == prefix[1..] + t;
    }
  }

  lemma BuiltMemberNames(prefix: string, id: Id)
    requires IsLanePrefix(prefix)
    ensures Names(prefix + RenderId(id), id)
    ensures forall other: Id :: Names(prefix + RenderId(id), other) ==> other == id
  {
    RenderRoundTrip(id);
    MemberSplits(prefix, RenderId(id));
    forall other: Id | Names(prefix + RenderId(id), other)
      ensures other == id
    {
      RenderRoundTrip(other);
    }
  }

  lemma {:induction false} DigitsHoldNoBar(s: string)
    requires ParseId(s).Some?
    ensures '|' !in s
  {
    var parts := MatchId(s).value;
    assert s == parts.0 + "-" + parts.1;
  }

  /** A member a caller builds for a message id names that id, and so the message id is in printed form. */
  lemma CallerMemberNames(prefix: string, messageId: string, named: Id)
    requires IsLanePrefix(prefix) && ParseId(messageId).Some?
    requires Names(prefix + messageId, named)
    ensures ParseId(messageId) == Some(named) && messageId == RenderId(named)
  {
    DigitsHoldNoBar(messageId);
    MemberSplits(prefix, messageId);
    RenderRoundTrip(named);
  }

  // ----- The steps the marked lanes take -----

  /** Callers build members from lane prefixes. */
  ghost predicate MembersBuilt(step: Step) {
    match step
    case RunFanoutAckDelete(_, messageId, _, member) =>
      exists prefix :: IsLanePrefix(prefix) && member == prefix + messageId
    case RunReenqueue(_, _, _, prefix, _, _) => IsLanePrefix(prefix)
    case RunLegacyFanout(_, prefix, _, _) => IsLanePrefix(prefix)
    case _ => true
  }

  /** A delete script that knows no markers meets no marked entry that every group confirms. */
  ghost predicate SparesMarked(s: Store, step: Step) {
    match step
    case RunAckDelete(group, messageId) =>
      ParseId(messageId).Some? && Marked(s, ParseId(messageId).value) ==>
        !AllGroupsConfirm(XAck(s.stream, group, ParseId(messageId).value), ParseId(messageId).value)
    case RunConfirmedDelete(messageId) =>
      ParseId(messageId).Some? && Marked(s, ParseId(messageId).value) ==>
        !AllGroupsConfirm(s.stream, ParseId(messageId).value)
    case _ => true
  }

  ghost predicate Follows(s: Store, step: Step) {
    MembersBuilt(step) && SparesMarked(s, step)
  }

  /** Each marker key holds one member; it names a present entry that no other key names. */
  ghost predicate KeyValid(s: Store, key: string)
    requires key in s.markers
  {
    exists member, id :: MarksOnly(s, key, member, id)
  }

  ghost predicate MarksOnly(s: Store, key: string, member: string, id: Id)
    requires key in s.markers
  {
    && s.markers[key] == {member}
    && Names(member, id)
    && id in s.stream.entries
  }

  ghost predicate MarkersValid(s: Store) {
    && (forall id | id in s.stream.entries :: AtLeast(s.stream.lastId, id))
    && (forall key | key in s.markers :: KeyValid(s, key))
    && forall k1, k2, m1, m2, id | k1 in s.markers && k2 in s.markers && m1 in s.markers[k1] && m2 in s.markers[k2]
         && Names(m1, id) && Names(m2, id) :: k1 == k2
  }

  lemma NamedEntryIsUnique(member: string, a: Id, b: Id)
    requires Names(member, a) && Names(member, b)
    ensures a == b
  {
    RenderRoundTrip(a);
    RenderRoundTrip(b);
  }

  /** Steps that keep every marker, and every entry a marker names. */
  lemma QuietStepKeepsMarkers(s: Store, s': Store)
    requires MarkersValid(s)
    requires s'.markers == s.markers
    requires forall id | id in s.stream.entries && Marked(s, id) :: id in s'.stream.entries
    requires forall id | id in s'.stream.entries :: AtLeast(s'.stream.lastId, id)
    ensures MarkersValid(s')
  {
    forall key | key in s'.markers
      ensures KeyValid(s', key)
    {
      assert KeyValid(s, key);
      var member, id :| MarksOnly(s, key, member, id);
      assert Marked(s, id);
      assert MarksOnly(s', key, member, id);
    }
  }

  /** A key that gains its one member for a brand-new entry, while every other key is left alone. */
  lemma NewEntryMarked(s: Store, s': Store, key: string, prefix: string, target: Id)
    requires MarkersValid(s) && IsLanePrefix(prefix) && Less(s.stream.lastId, target)
    requires s'.markers == s.markers[key := {prefix + RenderId(target)}]
    requires target in s'.stream.entries
    requires forall id | id in s'.stream.entries :: AtLeast(s'.stream.lastId, id)
    requires forall k, m, id | k in s.markers && k != key && m in s.markers[k] && Names(m, id) ::
      id in s'.stream.entries
    ensures MarkersValid(s')
  {
    BuiltMemberNames(prefix, target);
    assert MarksOnly(s', key, prefix + RenderId(target), target);
    forall k | k in s'.markers
      ensures KeyValid(s', k)
    {
      if k != key {
        assert KeyValid(s, k);
        var member, id :| MarksOnly(s, k, member, id);
        assert MarksOnly(s', k, member, id);
      }
    }
    forall k1, k2, m1, m2, id | k1 in s'.markers && k2 in s'.markers && m1 in s'.markers[k1] && m2 in s'.markers[k2]
      && Names(m1, id) && Names(m2, id)
      ensures k1 == k2
    {
      if k1 != key {
        MarkedEntryIsPresent(s, k1, m1, id);
      }
      if k2 != key {
        MarkedEntryIsPresent(s, k2, m2, id);
      }
    }
  }

  /** Every member names an entry still in the stream. */
  lemma MarkedEntryIsPresent(s: Store, key: string, member: string, id: Id)
    requires MarkersValid(s) && key in s.markers && member in s.markers[key] && Names(member, id)
    ensures id in s.stream.entries && AtLeast(s.stream.lastId, id)
    ensures s.markers[key] == {member}
  {
    assert KeyValid(s, key);
    var m, e :| MarksOnly(s, key, m, e);
    NamedEntryIsUnique(member, id, e);
  }

  lemma SwapMember(m: map<string, set<string>>, key: string, source: string, added: string)
    requires key in m && m[key] == {source} && source != added
    ensures SRem(SAdd(m, key, added), key, source) == m[key := {added}]
  {
    assert {source} + {added} - {source} == {added};
  }

  lemma FirstMember(m: map<string, set<string>>, key: string, added: string)
    requires Members(m, key) == {}
    ensures SAdd(m, key, added) == m[key := {added}]
  {
    assert Members(m, key) + {added} == {added};
  }

  lemma AckDeleteTouchesOneEntry(s: Stream, group: string, messageId: string)
    ensures var s' := AckDelete(s, group, messageId);
            && s'.lastId == s.lastId && s'.entries.Keys <= s.entries.Keys
            && forall id | id in s.entries && ParseId(messageId) != Some(id) :: id in s'.entries
  {
    if ParseId(messageId).Some? {
      AckOnlyReleases(s, group, ParseId(messageId).value);
    }
  }

  lemma MarkedSource(s: Store, key: string, prefix: string, messageId: string) returns (id: Id)
    requires MarkersValid(s) && IsLanePrefix(prefix) && prefix + messageId in Members(s.markers, key)
    ensures s.markers[key] == {prefix + messageId} && Names(prefix + messageId, id)
    ensures id in s.stream.entries && Marked(s, id)
    ensures ParseId(messageId).Some? ==> ParseId(messageId) == Some(id)
  {
    assert KeyValid(s, key);
    var member, e :| MarksOnly(s, key, member, e);
    id := e;
    if ParseId(messageId).Some? {
      CallerMemberNames(prefix, messageId, e);
    }
  }

  /** What a successful re-enqueue does: one member swapped, one entry added, at most the source deleted. */
  lemma ReenqueueSwapsOneMember(s: Store, step: Step)
    requires MarkersValid(s) && step.RunReenqueue? && Enabled(s, step) && Follows(s, step)
    requires step.prefix + step.messageId in Members(s.markers, step.key)
    ensures var s' := Apply(s, step);
            && s.markers[step.key] == {step.prefix + step.messageId}
            && s'.markers == s.markers[step.key := {step.prefix + RenderId(step.target)}]
            && step.target !in s.stream.entries && step.target in s'.stream.entries
            && s'.stream.entries[step.target] == step.fields
            && s'.stream.entries.Keys <= s.stream.entries.Keys + {step.target}
            && (forall id | id in s.stream.entries && id !in s'.stream.entries :: ParseId(step.messageId) == Some(id))
            && s'.stream.lastId == step.target
  {
    var source, added := step.prefix + step.messageId, step.prefix + RenderId(step.target);
    var e := MarkedSource(s, step.key, step.prefix, step.messageId);
    BuiltMemberNames(step.prefix, step.target);
    assert added != source;
    SwapMember(s.markers, step.key, source, added);
    AckDeleteTouchesOneEntry(XAdd(s.stream, step.target, step.fields), step.group, step.messageId);
  }

  lemma ReenqueueKeepsMarkers(s: Store, step: Step)
    requires MarkersValid(s) && step.RunReenqueue? && Enabled(s, step) && Follows(s, step)
    ensures MarkersValid(Apply(s, step))
  {
    if step.prefix + step.messageId in Members(s.markers, step.key) {
      ReenqueueSwapsOneMember(s, step);
      var s' := Apply(s, step);
      var e := MarkedSource(s, step.key, step.prefix, step.messageId);
      forall k, m, id | k in s.markers && k != step.key && m in s.markers[k] && Names(m, id)
        ensures id in s'.stream.entries
      {
        MarkedEntryIsPresent(s, k, m, id);
        assert id != e;
      }
      NewEntryMarked(s, s', step.key, step.prefix, step.target);
    }
  }

  /** What the fan-out terminal script does to a marked entry: it goes, and its key with it, or nothing leaves. */
  lemma TerminalRemovesEntryWithItsKey(s: Store, step: Step)
    requires MarkersValid(s) && step.RunFanoutAckDelete? && Follows(s, step)
    ensures var s' := Apply(s, step);
            || (s'.markers == s.markers && s'.stream.entries == s.stream.entries)
            || (&& ParseId(step.messageId).Some?
                && step.key in s.markers && s.markers[step.key] == {step.member}
                && Names(step.member, ParseId(step.messageId).value)
                && ParseId(step.messageId).value in s.stream.entries
                && s'.markers == s.markers - {step.key}
                && s'.stream.entries == s.stream.entries - {ParseId(step.messageId).value})
    ensures Apply(s, step).stream.lastId == s.stream.lastId
  {
    hide AllGroupsConfirm, ParseId, IsLanePrefix, Names, XAck, SparesMarked, SRem;
    if ParseId(step.messageId).Some? {
      var id := ParseId(step.messageId).value;
      AckOnlyReleases(s.stream, step.group, id);
      if step.member in Members(s.markers, step.key) {
        assert KeyValid(s, step.key);
        var m, e :| MarksOnly(s, step.key, m, e);
        var prefix :| IsLanePrefix(prefix) && step.member == prefix + step.messageId;
        CallerMemberNames(prefix, step.messageId, e);
        LastMember(s.markers, step.key, step.member);
      }
    }
  }

  lemma LastMember(m: map<string, set<string>>, key: string, member: string)
    requires key in m && m[key] == {member}
    ensures SRem(m, key, member) == m - {key}
  {
    assert Members(m, key) - {member} == {};
  }

  lemma KeyAndEntryLeave(s: Store, s': Store, key: string, member: string, id: Id)
    requires MarkersValid(s) && key in s.markers && s.markers[key] == {member} && Names(member, id)
    requires s'.markers == s.markers - {key} && s'.stream.entries == s.stream.entries - {id}
    requires s'.stream.lastId == s.stream.lastId
    ensures MarkersValid(s')
  {
    hide Names;
    forall k | k in s'.markers
      ensures KeyValid(s', k)
    {
      assert KeyValid(s, k);
      var m, e :| MarksOnly(s, k, m, e);
      assert member in s.markers[key] && m in s.markers[k];
      assert MarksOnly(s', k, m, e);
    }
  }

  lemma TerminalKeepsMarkers(s: Store, step: Step)
    requires MarkersValid(s) && step.RunFanoutAckDelete? && Follows(s, step)
    ensures MarkersValid(Apply(s, step))
  {
    hide MembersBuilt, SparesMarked, KeyValid, Marked, Names, ParseId, AllGroupsConfirm, FanoutAckDelete;
    TerminalRemovesEntryWithItsKey(s, step);
    var s' := Apply(s, step);
    if s'.markers == s.markers && s'.stream.entries == s.stream.entries {
      QuietStepKeepsMarkers(s, s');
    } else {
      KeyAndEntryLeave(s, s', step.key, step.member, ParseId(step.messageId).value);
    }
  }

  lemma LegacyFanoutKeepsMarkers(s: Store, step: Step)
    requires MarkersValid(s) && step.RunLegacyFanout? && Enabled(s, step) && Follows(s, step)
    ensures MarkersValid(Apply(s, step))
  {
    var s' := Apply(s, step);
    if Members(s.markers, step.key) == {} {
      forall k, m, id | k in s.markers && k != step.key && m in s.markers[k] && Names(m, id)
        ensures id in s'.stream.entries
      {
        MarkedEntryIsPresent(s, k, m, id);
      }
      FirstMember(s.markers, step.key, step.prefix + RenderId(step.target));
      NewEntryMarked(s, s', step.key, step.prefix, step.target);
    }
  }

  lemma AckDeleteKeepsMarkers(s: Store, group: string, messageId: string)
    requires MarkersValid(s) && SparesMarked(s, RunAckDelete(group, messageId))
    ensures MarkersValid(s.(stream := AckDelete(s.stream, group, messageId)))
  {
    hide ParseId, AllGroupsConfirm, Marked, KeyValid, Names;
    if ParseId(messageId).Some? {
      AckOnlyReleases(s.stream, group, ParseId(messageId).value);
    }
    QuietStepKeepsMarkers(s, s.(stream := AckDelete(s.stream, group, messageId)));
  }

  lemma ConfirmedDeleteKeepsMarkers(s: Store, messageId: string)
    requires MarkersValid(s) && SparesMarked(s, RunConfirmedDelete(messageId))
    ensures MarkersValid(s.(stream := ConfirmedDelete(s.stream, messageId)))
  {
    hide ParseId, AllGroupsConfirm, Marked, KeyValid, Names;
    QuietStepKeepsMarkers(s, s.(stream := ConfirmedDelete(s.stream, messageId)));
  }

  /** The marker invariant survives every step that spares marked entries. */
  lemma StepKeepsMarkers(s: Store, step: Step)
    requires MarkersValid(s) && Enabled(s, step) && Follows(s, step)
    ensures MarkersValid(Apply(s, step))
  {
    hide SparesMarked, MembersBuilt, KeyValid, Marked, Names, IsNextFor, FaithfulLag;
    hide ParseId, AckDelete, ConfirmedDelete, FanoutAckDelete, Reenqueue, LegacyFanout, Retirable, ConsumerRetirable;
    match step
    case RunReenqueue(_, _, _, _, _, _) => ReenqueueKeepsMarkers(s, step);
    case RunFanoutAckDelete(_, _, _, _) => TerminalKeepsMarkers(s, step);
    case RunLegacyFanout(_, _, _, _) => LegacyFanoutKeepsMarkers(s, step);
    case RunAckDelete(group, messageId) => AckDeleteKeepsMarkers(s, group, messageId);
    case RunConfirmedDelete(messageId) => ConfirmedDeleteKeepsMarkers(s, messageId);
    case Ack(group, id) =>
      AckOnlyReleases(s.stream, group, id);
      QuietStepKeepsMarkers(s, Apply(s, step));
    case _ => QuietStepKeepsMarkers(s, Apply(s, step));
  }

  /** A marked entry that leaves while its marker stays breaks the invariant. */
  lemma DanglingMarker(s: Store, s': Store, id: Id)
    requires MarkersValid(s) && Marked(s, id) && s'.markers == s.markers && id !in s'.stream.entries
    ensures !MarkersValid(s')
  {
    var key :| key in s.markers && exists member | member in s.markers[key] :: Names(member, id);
    var member :| member in s.markers[key] && Names(member, id);
    if MarkersValid(s') {
      MarkedEntryIsPresent(s', key, member, id);
      assert false;
    }
  }

  /** Sparing marked entries is not only enough but needed: any other unmarked delete breaks the invariant. */
  lemma StepKeepsMarkersIff(s: Store, step: Step)
    requires MarkersValid(s) && Enabled(s, step) && MembersBuilt(step)
    ensures MarkersValid(Apply(s, step)) <==> SparesMarked(s, step)
  {
    if SparesMarked(s, step) {
      StepKeepsMarkers(s, step);
    } else {
      var id := ParseId(step.messageId).value;
      DanglingMarker(s, Apply(s, step), id);
    }
  }

  /** The retention sweep's confirmed delete keeps markers exactly when it meets no confirmed marked entry. */
  lemma ConfirmedDeleteKeepsMarkersIff(s: Store, messageId: string)
    requires MarkersValid(s)
    ensures MarkersValid(Apply(s, RunConfirmedDelete(messageId))) <==>
      !(ParseId(messageId).Some? && Marked(s, ParseId(messageId).value) &&
        AllGroupsConfirm(s.stream, ParseId(messageId).value))
  {
    StepKeepsMarkersIff(s, RunConfirmedDelete(messageId));
  }

  lemma AckDeleteKeepsMarkersIff(s: Store, group: string, messageId: string)
    requires MarkersValid(s)
    ensures MarkersValid(Apply(s, RunAckDelete(group, messageId))) <==>
      !(ParseId(messageId).Some? && Marked(s, ParseId(messageId).value) &&
        AllGroupsConfirm(XAck(s.stream, group, ParseId(messageId).value), ParseId(messageId).value))
  {
    StepKeepsMarkersIff(s, RunAckDelete(group, messageId));
  }

  // ----- Whole runs -----

  ghost predicate MarkedRun(stores: seq<Store>, steps: seq<Step>) {
    && |stores| == |steps| + 1
    && MarkersValid(stores[0])
    && forall i | 0 <= i < |steps| ::
         Enabled(stores[i], steps[i]) && Follows(stores[i], steps[i]) && stores[i + 1] == Apply(stores[i], steps[i])
  }

  lemma {:induction false} RunKeepsMarkers(stores: seq<Store>, steps: seq<Step>, k: nat)
    requires MarkedRun(stores, steps) && k <= |steps|
    ensures MarkersValid(stores[k])
  {
    if k > 0 {
      RunKeepsMarkers(stores, steps, k - 1);
      StepKeepsMarkers(stores[k - 1], steps[k - 1]);
    }
  }

  ghost predicate BuiltRun(stores: seq<Store>, steps: seq<Step>) {
    && |stores| == |steps| + 1
    && MarkersValid(stores[0])
    && forall i | 0 <= i < |steps| ::
         Enabled(stores[i], steps[i]) && MembersBuilt(steps[i]) && stores[i + 1] == Apply(stores[i], steps[i])
  }

  /** A run with built members keeps the invariant throughout exactly when every step spares marked entries. */
  lemma RunKeepsMarkersIff(stores: seq<Store>, steps: seq<Step>)
    requires BuiltRun(stores, steps)
    ensures (forall k | 0 <= k <= |steps| :: MarkersValid(stores[k])) <==>
            (forall i | 0 <= i < |steps| :: SparesMarked(stores[i], steps[i]))
  {
    hide MarkersValid, SparesMarked, MembersBuilt, Enabled, Apply;
    if forall i | 0 <= i < |steps| :: SparesMarked(stores[i], steps[i]) {
      forall k | 0 <= k <= |steps| ensures MarkersValid(stores[k]) {
        RunKeepsMarkers(stores, steps, k);
      }
    }
    if forall k | 0 <= k <= |steps| :: MarkersValid(stores[k]) {
      forall i | 0 <= i < |steps| ensures SparesMarked(stores[i], steps[i]) {
        StepKeepsMarkersIff(stores[i], steps[i]);
        assert MarkersValid(stores[i + 1]);
      }
    }
  }

  /** Two groups own the one entry, and a marker key names it. */
  function BothOwn(id: Id, prefix: string, key: string, fields: seq<string>): Store {
    var owned := Group(id, map[id := "worker"], {"worker"});
    Store(Stream(map[id := fields], id, map["a" := owned, "b" := owned]), map[key := {prefix + RenderId(id)}])
  }

  /** One group runs the terminal script, the other acknowledges, and the sweep's confirmed delete comes by. */
  function SweepSteps(id: Id, prefix: string, key: string): seq<Step> {
    [RunFanoutAckDelete("a", RenderId(id), key, prefix + RenderId(id)), Ack("b", id), RunConfirmedDelete(RenderId(id))]
  }

  /**
   The sweep meets such an entry: one group runs the terminal script while the other still owns the
   entry, the other then acknowledges it, and the sweep's confirmed delete leaves the marker behind.
   */
  lemma SweepLeavesMarkerBehind(id: Id, prefix: string, key: string, fields: seq<string>) returns (stores: seq<Store>)
    requires IsLanePrefix(prefix)
    ensures BuiltRun(stores, SweepSteps(id, prefix, key)) && stores[0] == BothOwn(id, prefix, key, fields)
    ensures MarkersValid(stores[1]) && MarkersValid(stores[2]) && !MarkersValid(stores[3])
    ensures stores[3].markers == stores[0].markers && id !in stores[3].stream.entries
  {
    hide MarkersValid, AllGroupsConfirm, Marked, XAck, IsLanePrefix, RenderId, ParseId;
    var s0 := BothOwn(id, prefix, key, fields);
    RenderRoundTrip(id);
    FirstGroupKeepsEntry(s0, id, key, prefix + RenderId(id));
    var s1 := s0.(stream := XAck(s0.stream, "a", id));
    var s2 := s1.(stream := XAck(s1.stream, "b", id));
    var s3 := s2.(stream := ConfirmedDelete(s2.stream, RenderId(id)));
    SecondGroupConfirms(s0.stream, id);
    OneMarkerIsValid(s0, key, prefix, id);
    OneMarkerIsValid(s1, key, prefix, id);
    OneMarkerIsValid(s2, key, prefix, id);
    ConfirmedDeleteKeepsMarkersIff(s2, RenderId(id));
    stores := [s0, s1, s2, s3];
  }

  /** The terminal script of group a acknowledges and keeps the entry while b owns it. */
  lemma FirstGroupKeepsEntry(s: Store, id: Id, key: string, member: string)
    requires OwnedBy(s.stream, "b", id)
    ensures FanoutAckDelete(s, "a", RenderId(id), key, member) == s.(stream := XAck(s.stream, "a", id))
  {
    RenderRoundTrip(id);
    AckOnlyReleases(s.stream, "a", id);
    assert !GroupConfirms(XAck(s.stream, "a", id).groups["b"], id);
  }

  lemma SecondGroupConfirms(s: Stream, id: Id)
    requires s.groups.Keys == {"a", "b"} && forall name | name in s.groups :: AtLeast(s.groups[name].lastDelivered, id)
    ensures var s1 := XAck(s, "a", id);
      var s2 := XAck(s1, "b", id);
      && s1.entries == s.entries && s2.entries == s.entries && s1.lastId == s.lastId && s2.lastId == s.lastId
      && AllGroupsConfirm(s2, id)
  {
    var s1 := XAck(s, "a", id);
    AckOnlyReleases(s, "a", id);
    AckOnlyReleases(s1, "b", id);
    assert |{"a", "b"}| == 2;
  }

  lemma OneMarkerIsValid(s: Store, key: string, prefix: string, id: Id)
    requires IsLanePrefix(prefix) && s.stream.entries.Keys == {id} && s.stream.lastId == id
    requires s.markers == map[key := {prefix + RenderId(id)}]
    ensures MarkersValid(s) && Marked(s, id)
  {
    BuiltMemberNames(prefix, id);
    assert MarksOnly(s, key, prefix + RenderId(id), id);
  }

  /** A marker key vanishes in exactly the step that removes the entry its last member names. */
  lemma KeyVanishesWithItsEntry(stores: seq<Store>, steps: seq<Step>, k: nat, key: string, member: string, id: Id)
    requires MarkedRun(stores, steps) && k < |steps|
    requires key in stores[k].markers && member in stores[k].markers[key] && Names(member, id)
    ensures key !in stores[k + 1].markers ==>
              && id !in stores[k + 1].stream.entries
              && AllGroupsConfirm(stores[k + 1].stream, id)
    ensures id !in stores[k + 1].stream.entries ==>
      key !in stores[k + 1].markers || member !in stores[k + 1].markers[key]
    ensures key in stores[k + 1].markers ==> stores[k + 1].markers[key] != {}
  {
    RunKeepsMarkers(stores, steps, k);
    RunKeepsMarkers(stores, steps, k + 1);
    var s, step, s' := stores[k], steps[k], stores[k + 1];
    MarkedEntryIsPresent(s, key, member, id);
    if key in s'.markers {
      assert KeyValid(s', key);
      if member in s'.markers[key] {
        MarkedEntryIsPresent(s', key, member, id);
      }
    } else if step.RunFanoutAckDelete? {
      TerminalRemovesEntryWithItsKey(s, step);
      NamedEntryIsUnique(member, id, ParseId(step.messageId).value);
      EntryLeavesOnlyWhenConfirmed(s, step, id);
    } else if step.RunReenqueue? && step.prefix + step.messageId in Members(s.markers, step.key) {
      ReenqueueSwapsOneMember(s, step);
    }
  }

  /** An old entry without a marker never gets one. */
  lemma {:induction false} UnmarkedStaysUnmarked(stores: seq<Store>, steps: seq<Step>, i: nat, k: nat, id: Id)
    requires MarkedRun(stores, steps) && i <= k <= |steps|
    requires AtLeast(stores[i].stream.lastId, id) && !Marked(stores[i], id)
    ensures AtLeast(stores[k].stream.lastId, id) && !Marked(stores[k], id)
    decreases k
  {
    if i < k {
      UnmarkedStaysUnmarked(stores, steps, i, k - 1, id);
      RunKeepsMarkers(stores, steps, k - 1);
      StepMarksOnlyNewEntries(stores[k - 1], steps[k - 1], id);
    }
  }

  lemma NewMemberMarksTarget(s: Store, s': Store, key: string, prefix: string, target: Id, id: Id)
    requires IsLanePrefix(prefix) && !Marked(s, id) && id != target
    requires s'.markers == s.markers[key := {prefix + RenderId(target)}]
    ensures !Marked(s', id)
  {
    BuiltMemberNames(prefix, target);
  }

  lemma FewerMembersMarkLess(s: Store, s': Store, id: Id)
    requires !Marked(s, id)
    requires forall key | key in s'.markers :: key in s.markers && s'.markers[key] == s.markers[key]
    ensures !Marked(s', id)
  {
    hide Names;
  }

  lemma StepMarksOnlyNewEntries(s: Store, step: Step, id: Id)
    requires MarkersValid(s) && Enabled(s, step) && Follows(s, step)
    requires AtLeast(s.stream.lastId, id) && !Marked(s, id)
    ensures AtLeast(Apply(s, step).stream.lastId, id) && !Marked(Apply(s, step), id)
  {
    hide MarkersValid, SparesMarked, Marked, Names, IsNextFor, FaithfulLag, IsLanePrefix;
    hide ParseId, RenderId, SRem, AckDelete, ConfirmedDelete, XAck, Retirable, ConsumerRetirable;
    EntryIsNeverReadded(s, step, id);
    match step
    case RunReenqueue(_, messageId, key, prefix, _, target) =>
      if prefix + messageId in Members(s.markers, key) {
        ReenqueueSwapsOneMember(s, step);
        NewMemberMarksTarget(s, Apply(s, step), key, prefix, target, id);
      }
    case RunFanoutAckDelete(_, _, _, _) =>
      TerminalRemovesEntryWithItsKey(s, step);
      FewerMembersMarkLess(s, Apply(s, step), id);
    case RunLegacyFanout(key, prefix, _, target) =>
      if Members(s.markers, key) == {} {
        FirstMember(s.markers, key, prefix + RenderId(target));
        NewMemberMarksTarget(s, Apply(s, step), key, prefix, target, id);
      }
    case _ =>
      FewerMembersMarkLess(s, Apply(s, step), id);
  }

  /** After a successful re-enqueue, any later re-enqueue of the same source id changes nothing. */
  lemma RepeatedReenqueueAddsNothing(stores: seq<Store>, steps: seq<Step>, i: nat, k: nat)
    requires MarkedRun(stores, steps) && i < k < |steps|
    requires steps[i].RunReenqueue? && steps[k].RunReenqueue?
    requires steps[i].prefix + steps[i].messageId in Members(stores[i].markers, steps[i].key)
    requires ParseId(steps[i].messageId).Some? && ParseId(steps[k].messageId) == ParseId(steps[i].messageId)
    ensures stores[k + 1] == stores[k]
  {
    RunKeepsMarkers(stores, steps, i);
    var id := ReenqueueUnmarksItsSource(stores[i], steps[i]);
    UnmarkedStaysUnmarked(stores, steps, i + 1, k, id);
    RunKeepsMarkers(stores, steps, k);
    if steps[k].prefix + steps[k].messageId in Members(stores[k].markers, steps[k].key) {
      var _ := MarkedSource(stores[k], steps[k].key, steps[k].prefix, steps[k].messageId);
    }
  }

  lemma ReenqueueUnmarksItsSource(s: Store, step: Step) returns (id: Id)
    requires MarkersValid(s) && step.RunReenqueue? && Enabled(s, step) && Follows(s, step)
    requires step.prefix + step.messageId in Members(s.markers, step.key)
    requires ParseId(step.messageId).Some?
    ensures ParseId(step.messageId) == Some(id)
    ensures AtLeast(Apply(s, step).stream.lastId, id) && !Marked(Apply(s, step), id)
  {
    hide KeyValid, AllGroupsConfirm;
    ReenqueueSwapsOneMember(s, step);
    id := MarkedSource(s, step.key, step.prefix, step.messageId);
    BuiltMemberNames(step.prefix, step.target);
  }
}
