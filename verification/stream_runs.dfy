/**
 Runs of one stream: producers, consumers, recovery, the terminal scripts, the retention sweep
 and the operator's retirement, interleaved in any order. Each command and each script is one step.
 The log beside the stream remembers where each attached group started and which entries it acknowledged.
 */
module StreamRuns {
  import opened Results
  import opened StreamIds
  import opened TaskStreams
  import opened GroupRetirement

  datatype Step =
    | Add(id: Id, fields: seq<string>)
    | Deliver(group: string, consumer: string, id: Id)
    | Claim(group: string, consumer: string, id: Id)
    | Ack(group: string, id: Id)
    | RunAckDelete(group: string, messageId: string)
    | RunConfirmedDelete(messageId: string)
    | RunFanoutAckDelete(group: string, messageId: string, key: string, member: string)
    | RunReenqueue(group: string, messageId: string, key: string, prefix: string, fields: seq<string>, target: Id)
    | RunLegacyFanout(key: string, prefix: string, fields: seq<string>, target: Id)
    | CreateGroup(group: string, start: Id)
    | RunRetireGroup(intent: Intent, observed: Observation)
    | RunRetireConsumer(group: string, consumer: string, idle: Option<nat>, minimumIdle: nat)

  // ----- Commands outside the scripts -----

  /** XREADGROUP hands out the first entry past the group's position. */
  ghost predicate IsNextFor(s: Stream, g: Group, id: Id) {
    && id in s.entries && Less(g.lastDelivered, id)
    && forall e | e in s.entries && Less(g.lastDelivered, e) :: AtLeast(e, id)
  }

  function DeliverEntry(s: Stream, group: string, consumer: string, id: Id): Stream
    requires group in s.groups
  {
    var g := s.groups[group];
    s.(groups := s.groups[group := Group(id, g.pending[id := consumer], g.consumers + {consumer})])
  }

  /** XCLAIM moves a pending entry to another consumer; an id that is not pending stays so. */
  function ClaimEntry(s: Stream, group: string, consumer: string, id: Id): Stream
    requires group in s.groups
  {
    var g := s.groups[group];
    var pending := if id !in g.pending then g.pending
                   else if id in s.entries then g.pending[id := consumer]
                   else g.pending - {id};
    s.(groups := s.groups[group := g.(pending := pending, consumers := g.consumers + {consumer})])
  }

  function AttachGroup(s: Stream, group: string, start: Id): Stream {
    if group in s.groups then s
    else s.(groups := s.groups[group := Group(start, map[], {})])
  }

  // ----- Steps -----

  ghost predicate Enabled(s: Store, step: Step) {
    match step
    case Add(id, _) => Less(s.stream.lastId, id)
    case Deliver(group, _, id) => group in s.stream.groups && IsNextFor(s.stream, s.stream.groups[group], id)
    case Claim(group, _, _) => group in s.stream.groups
    case RunReenqueue(_, _, _, _, _, target) => Less(s.stream.lastId, target)
    case RunLegacyFanout(_, _, _, target) => Less(s.stream.lastId, target)
    case RunRetireGroup(intent, observed) => FaithfulLag(s.stream, intent.group, observed.lag)
    case RunRetireConsumer(group, _, _, _) => group in s.stream.groups
    case _ => true
  }

  ghost function Apply(s: Store, step: Step): Store
    requires Enabled(s, step)
  {
    match step
    case Add(id, fields) => s.(stream := XAdd(s.stream, id, fields))
    case Deliver(group, consumer, id) => s.(stream := DeliverEntry(s.stream, group, consumer, id))
    case Claim(group, consumer, id) => s.(stream := ClaimEntry(s.stream, group, consumer, id))
    case Ack(group, id) => s.(stream := XAck(s.stream, group, id))
    case RunAckDelete(group, messageId) => s.(stream := AckDelete(s.stream, group, messageId))
    case RunConfirmedDelete(messageId) => s.(stream := ConfirmedDelete(s.stream, messageId))
    case RunFanoutAckDelete(group, messageId, key, member) => FanoutAckDelete(s, group, messageId, key, member)
    case RunReenqueue(group, messageId, key, prefix, fields, target) =>
      Reenqueue(s, group, messageId, key, prefix, fields, target)
    case RunLegacyFanout(key, prefix, fields, target) => LegacyFanout(s, key, prefix, fields, target)
    case CreateGroup(group, start) => s.(stream := AttachGroup(s.stream, group, start))
    case RunRetireGroup(intent, observed) => s.(stream := Retire(s.stream, intent, observed))
    case RunRetireConsumer(group, consumer, idle, minimumIdle) =>
      s.(stream := RetireConsumer(s.stream, group, consumer, idle, minimumIdle))
  }

  // ----- Who owns an entry -----

  /** A delivery gives one entry to one consumer, a claim gives on what is pending and present; nothing else moves. */
  lemma HandedOver(s: Store, step: Step, other: Id)
    requires Enabled(s, step) && (step.Deliver? || step.Claim?) && other != step.id
    ensures var g, g' := s.stream.groups[step.group], Apply(s, step).stream.groups[step.group];
      && (step.Deliver? || (step.id in g.pending && step.id in s.stream.entries) ==>
            step.id in g'.pending && g'.pending[step.id] == step.consumer)
      && (step.Claim? && (step.id !in g.pending || step.id !in s.stream.entries) ==> step.id !in g'.pending)
      && (other in g'.pending <==> other in g.pending)
      && (other in g.pending ==> g'.pending[other] == g.pending[other])
      && step.consumer in g'.consumers && g.consumers <= g'.consumers
      && g'.lastDelivered == (if step.Deliver? then step.id else g.lastDelivered)
    ensures forall name | name in s.stream.groups && name != step.group ::
      Apply(s, step).stream.groups[name] == s.stream.groups[name]
    ensures Apply(s, step).stream.groups.Keys == s.stream.groups.Keys
    ensures Apply(s, step).stream.entries == s.stream.entries && Apply(s, step).markers == s.markers
  {
  }

  // ----- What an entry carries -----

  /** The id and the fields a step is to add, if it adds an entry at all. */
  ghost function Adds(s: Store, step: Step): Option<(Id, seq<string>)> {
    match step
    case Add(id, fields) => Some((id, fields))
    case RunReenqueue(_, messageId, key, prefix, fields, target) =>
      if key in s.markers && prefix + messageId in s.markers[key] then Some((target, fields)) else None
    case RunLegacyFanout(key, _, fields, target) =>
      if key in s.markers && s.markers[key] != {} then None else Some((target, fields))
    case _ => None
  }

  /** Deleting is all that the scripts and the commands do to the entries they do not add. */
  lemma EntriesKeepTheirFields(s: Store, step: Step, id: Id)
    requires Enabled(s, step) && id in Apply(s, step).stream.entries
    ensures Adds(s, step).Some? && Adds(s, step).value.0 == id ==>
      Apply(s, step).stream.entries[id] == Adds(s, step).value.1
    ensures Adds(s, step).None? || Adds(s, step).value.0 != id ==>
      id in s.stream.entries && Apply(s, step).stream.entries[id] == s.stream.entries[id]
  {
    hide AllGroupsConfirm, ParseId, RenderId, IsNextFor, FaithfulLag, Retirable, ConsumerRetirable, SRem;
    hide XAck, AckDelete, FanoutAckDelete;
    match step
    case RunAckDelete(group, messageId) => AckDeleteKeepsFields(s.stream, group, messageId);
    case RunFanoutAckDelete(group, messageId, key, member) => FanoutKeepsFields(s, group, messageId, key, member);
    case RunReenqueue(group, messageId, _, _, fields, target) =>
      AckDeleteKeepsFields(XAdd(s.stream, target, fields), group, messageId);
    case Ack(group, e) => AckOnlyReleases(s.stream, group, e);
    case _ =>
  }

  lemma AckDeleteKeepsFields(s: Stream, group: string, messageId: string)
    ensures forall id | id in AckDelete(s, group, messageId).entries ::
      id in s.entries && AckDelete(s, group, messageId).entries[id] == s.entries[id]
  {
    hide AllGroupsConfirm, ParseId, XAck;
    if ParseId(messageId).Some? {
      AckOnlyReleases(s, group, ParseId(messageId).value);
    }
  }

  lemma FanoutKeepsFields(s: Store, group: string, messageId: string, key: string, member: string)
    ensures var s' := FanoutAckDelete(s, group, messageId, key, member).stream;
      forall id | id in s'.entries :: id in s.stream.entries && s'.entries[id] == s.stream.entries[id]
  {
    hide AllGroupsConfirm, ParseId, XAck, Members, SRem;
    if ParseId(messageId).Some? {
      AckOnlyReleases(s.stream, group, ParseId(messageId).value);
    }
  }

  /** The entry a step adds is there afterwards, and is the last, unless it is the one the step settles. */
  lemma AddedEntryIsThere(s: Store, step: Step)
    requires Enabled(s, step) && Adds(s, step).Some?
    requires step.RunReenqueue? ==> ParseId(step.messageId) != Some(step.target)
    ensures var (id, fields) := Adds(s, step).value;
      && id in Apply(s, step).stream.entries && Apply(s, step).stream.entries[id] == fields
      && Apply(s, step).stream.lastId == id && Less(s.stream.lastId, id)
  {
    hide AllGroupsConfirm, ParseId, RenderId, XAck;
    if step.RunReenqueue? && ParseId(step.messageId).Some? {
      AckOnlyReleases(XAdd(s.stream, step.target, step.fields), step.group, ParseId(step.messageId).value);
    }
  }

  // ----- Deletion is guarded -----

  lemma AckOnlyReleases(s: Stream, group: string, id: Id)
    ensures var s' := XAck(s, group, id);
            && s'.entries == s.entries && s'.lastId == s.lastId && s'.groups.Keys == s.groups.Keys
            && (forall name | name in s.groups ::
                  && s'.groups[name].lastDelivered == s.groups[name].lastDelivered
                  && s'.groups[name].pending == (if name == group then s.groups[name].pending - {id}
                                                 else s.groups[name].pending))
  {
    if group in s.groups && !OwnedBy(s, group, id) {
      assert s.groups[group].pending - {id} == s.groups[group].pending;
    }
  }

  /** What a script with an XACK in it does: one pending record at most goes, and entries only leave. */
  ghost predicate AckEffect(s: Stream, s': Stream, group: string, messageId: string) {
    && s'.lastId == s.lastId && s'.entries.Keys <= s.entries.Keys && s'.groups.Keys == s.groups.Keys
    && forall name | name in s.groups ::
         && s'.groups[name].lastDelivered == s.groups[name].lastDelivered
         && s'.groups[name].pending == (if name == group && ParseId(messageId).Some?
                                        then s.groups[name].pending - {ParseId(messageId).value}
                                        else s.groups[name].pending)
  }

  lemma AckDeleteEffect(s: Stream, group: string, messageId: string)
    ensures AckEffect(s, AckDelete(s, group, messageId), group, messageId)
  {
    hide ParseId, AllGroupsConfirm, XAck;
    if ParseId(messageId).Some? {
      AckOnlyReleases(s, group, ParseId(messageId).value);
    }
  }

  lemma FanoutAckDeleteEffect(s: Store, group: string, messageId: string, key: string, member: string)
    ensures AckEffect(s.stream, FanoutAckDelete(s, group, messageId, key, member).stream, group, messageId)
  {
    hide ParseId, AllGroupsConfirm, XAck, Members, SRem;
    if ParseId(messageId).Some? {
      AckOnlyReleases(s.stream, group, ParseId(messageId).value);
    }
  }

  /** Whatever the step, an entry leaves only while 1 to 32 groups are attached and all of them confirm it. */
  lemma EntryLeavesOnlyWhenConfirmed(s: Store, step: Step, id: Id)
    requires Enabled(s, step)
    requires id in s.stream.entries && id !in Apply(s, step).stream.entries
    ensures AllGroupsConfirm(Apply(s, step).stream, id)
    ensures Apply(s, step).stream.groups.Keys == s.stream.groups.Keys
  {
    var s' := Apply(s, step).stream;
    match step
    case RunAckDelete(group, messageId) =>
      DeletedByAckDelete(s.stream, group, messageId, id);
    case RunConfirmedDelete(messageId) =>
    case RunFanoutAckDelete(group, messageId, key, member) =>
      var acked := XAck(s.stream, group, ParseId(messageId).value);
      AckOnlyReleases(s.stream, group, ParseId(messageId).value);
      assert s'.groups == acked.groups;
    case RunReenqueue(group, messageId, key, prefix, fields, target) =>
      var added := XAdd(s.stream, target, fields);
      DeletedByAckDelete(added, group, messageId, id);
    case RunRetireGroup(_, _) =>
    case _ =>
  }

  /** With no group attached, or with more than 32, nothing is ever deleted. */
  lemma NothingLeavesWithoutGroups(s: Store, step: Step, id: Id)
    requires Enabled(s, step) && id in s.stream.entries && (|s.stream.groups| == 0 || |s.stream.groups| > 32)
    ensures id in Apply(s, step).stream.entries
  {
    hide Apply;
    if id !in Apply(s, step).stream.entries {
      EntryLeavesOnlyWhenConfirmed(s, step, id);
      assert false;
    }
  }

  lemma DeletedByAckDelete(s: Stream, group: string, messageId: string, id: Id)
    requires id in s.entries && id !in AckDelete(s, group, messageId).entries
    ensures ParseId(messageId) == Some(id)
    ensures AllGroupsConfirm(AckDelete(s, group, messageId), id)
    ensures AckDelete(s, group, messageId).groups.Keys == s.groups.Keys
  {
    var parsed := ParseId(messageId).value;
    var acked := XAck(s, group, parsed);
    AckOnlyReleases(s, group, parsed);
    assert AckDelete(s, group, messageId).groups == acked.groups;
  }

  // ----- What each group acknowledged -----

  /** The store, each attached group's start, and the entries it acknowledged since it was attached. */
  datatype World = World(store: Store, starts: map<string, Id>, acked: set<(string, Id)>)

  function Acknowledges(step: Step): Option<(string, string)> {
    match step
    case RunAckDelete(group, messageId) => Some((group, messageId))
    case RunFanoutAckDelete(group, messageId, _, _) => Some((group, messageId))
    case RunReenqueue(group, messageId, _, _, _, _) => Some((group, messageId))
    case Ack(group, id) => Some((group, RenderId(id)))
    case _ => None
  }

  /** The group and entry whose pending record an XACK in this step removes. */
  ghost predicate Releases(s: Store, step: Step, group: string, id: Id)
    requires Enabled(s, step)
  {
    && Acknowledges(step).Some?
    && Acknowledges(step).value.0 == group
    && ParseId(Acknowledges(step).value.1) == Some(id)
    && OwnedBy(s.stream, group, id)
    && !OwnedBy(Apply(s, step).stream, group, id)
  }

  ghost predicate Next(w: World, step: Step, w': World) {
    && Enabled(w.store, step)
    && w'.store == Apply(w.store, step)
    && w'.starts.Keys == w'.store.stream.groups.Keys
    && (forall g | g in w'.starts :: w'.starts[g] ==
          if g in w.starts then w.starts[g] else w'.store.stream.groups[g].lastDelivered)
    && (forall g, id :: (g, id) in w'.acked <==>
          g in w'.starts && ((g, id) in w.acked || Releases(w.store, step, g, id)))
  }

  /** Every present entry a group has passed since its start is still pending there or was acknowledged. */
  ghost predicate Accounted(start: Id, g: Group, name: string, id: Id, acked: set<(string, Id)>) {
    Less(start, id) && AtLeast(g.lastDelivered, id) ==> id in g.pending || (name, id) in acked
  }

  ghost predicate GroupValid(s: Stream, start: Id, g: Group, name: string, acked: set<(string, Id)>) {
    && (g.lastDelivered == start || AtLeast(s.lastId, g.lastDelivered))
    && g.pending.Keys <= s.entries.Keys
    && forall id | id in s.entries :: Accounted(start, g, name, id, acked)
  }

  ghost predicate ValidLog(s: Stream, starts: map<string, Id>, acked: set<(string, Id)>) {
    && starts.Keys == s.groups.Keys
    && (forall id | id in s.entries :: AtLeast(s.lastId, id))
    && forall name | name in s.groups :: GroupValid(s, starts[name], s.groups[name], name, acked)
  }

  ghost predicate Valid(w: World) {
    ValidLog(w.store.stream, w.starts, w.acked)
  }

  lemma MoreAcknowledgedStaysValid(s: Stream, starts: map<string, Id>, acked: set<(string, Id)>, more: set<(string,
      Id)>)
    requires ValidLog(s, starts, acked)
    requires forall name, id | name in starts && (name, id) in acked :: (name, id) in more
    ensures ValidLog(s, starts, more)
  {
    forall name | name in s.groups
      ensures GroupValid(s, starts[name], s.groups[name], name, more)
    {
      assert GroupValid(s, starts[name], s.groups[name], name, acked);
    }
  }

  lemma AddKeepsValid(s: Stream, starts: map<string, Id>, acked: set<(string, Id)>, id: Id, fields: seq<string>)
    requires ValidLog(s, starts, acked) && Less(s.lastId, id)
    ensures ValidLog(XAdd(s, id, fields), starts, acked)
  {
    var s' := XAdd(s, id, fields);
    forall name | name in s.groups
      ensures GroupValid(s', starts[name], s.groups[name], name, acked)
    {
      assert GroupValid(s, starts[name], s.groups[name], name, acked);
    }
  }

  lemma AckKeepsValid(s: Stream, starts: map<string, Id>, acked: set<(string, Id)>, group: string, id: Id)
    requires ValidLog(s, starts, acked)
    requires OwnedBy(s, group, id) ==> (group, id) in acked
    ensures ValidLog(XAck(s, group, id), starts, acked)
  {
    AckOnlyReleases(s, group, id);
    var s' := XAck(s, group, id);
    forall name | name in s.groups
      ensures GroupValid(s', starts[name], s'.groups[name], name, acked)
    {
      assert GroupValid(s, starts[name], s.groups[name], name, acked);
    }
  }

  lemma DeleteKeepsValid(s: Stream, starts: map<string, Id>, acked: set<(string, Id)>, id: Id)
    requires ValidLog(s, starts, acked)
    ensures ValidLog(DeleteIfConfirmed(s, id), starts, acked)
  {
    var s' := DeleteIfConfirmed(s, id);
    forall name | name in s.groups
      ensures GroupValid(s', starts[name], s.groups[name], name, acked)
    {
      assert GroupValid(s, starts[name], s.groups[name], name, acked);
    }
  }

  lemma AckDeleteKeepsValid(s: Stream, starts: map<string, Id>, acked: set<(string, Id)>, group: string,
      messageId: string)
    requires ValidLog(s, starts, acked)
    requires ParseId(messageId).Some? && OwnedBy(s, group, ParseId(messageId).value) ==>
               (group, ParseId(messageId).value) in acked
    ensures ValidLog(AckDelete(s, group, messageId), starts, acked)
  {
    if ParseId(messageId).Some? {
      var id := ParseId(messageId).value;
      AckKeepsValid(s, starts, acked, group, id);
      DeleteKeepsValid(XAck(s, group, id), starts, acked, id);
    }
  }

  lemma DeliverKeepsValid(s: Stream, starts: map<string, Id>, acked: set<(string, Id)>, group: string, consumer: string,
      id: Id)
    requires ValidLog(s, starts, acked)
    requires group in s.groups && IsNextFor(s, s.groups[group], id)
    ensures ValidLog(DeliverEntry(s, group, consumer, id), starts, acked)
  {
    var s' := DeliverEntry(s, group, consumer, id);
    forall name | name in s.groups
      ensures GroupValid(s', starts[name], s'.groups[name], name, acked)
    {
      assert GroupValid(s, starts[name], s.groups[name], name, acked);
      if name == group {
        forall e | e in s.entries
          ensures Accounted(starts[name], s'.groups[name], name, e, acked)
        {
          assert Accounted(starts[name], s.groups[name], name, e, acked);
        }
      }
    }
  }

  lemma OwnershipKeepsValid(s: Stream, starts: map<string, Id>, acked: set<(string, Id)>, group: string, g: Group)
    requires ValidLog(s, starts, acked) && group in s.groups
    requires g.lastDelivered == s.groups[group].lastDelivered && g.pending.Keys == s.groups[group].pending.Keys
    ensures ValidLog(s.(groups := s.groups[group := g]), starts, acked)
  {
    var s' := s.(groups := s.groups[group := g]);
    forall name | name in s.groups
      ensures GroupValid(s', starts[name], s'.groups[name], name, acked)
    {
      assert GroupValid(s, starts[name], s.groups[name], name, acked);
      forall e | e in s.entries
        ensures Accounted(starts[name], s'.groups[name], name, e, acked)
      {
        assert Accounted(starts[name], s.groups[name], name, e, acked);
      }
    }
  }

  lemma AttachKeepsValid(s: Stream, starts: map<string, Id>, starts': map<string, Id>, acked: set<(string, Id)>,
                         group: string, start: Id)
    requires ValidLog(s, starts, acked) && group !in s.groups
    requires starts'.Keys == starts.Keys + {group} && starts'[group] == start
    requires forall name | name in starts :: starts'[name] == starts[name]
    ensures ValidLog(AttachGroup(s, group, start), starts', acked)
  {
    var s' := AttachGroup(s, group, start);
    forall name | name in s'.groups
      ensures GroupValid(s', starts'[name], s'.groups[name], name, acked)
    {
      assert name != group ==> GroupValid(s, starts[name], s.groups[name], name, acked);
    }
  }

  lemma DestroyKeepsValid(s: Stream, starts: map<string, Id>, starts': map<string, Id>, acked: set<(string, Id)>,
      group: string)
    requires ValidLog(s, starts, acked)
    requires starts' == starts - {group}
    ensures ValidLog(DestroyGroup(s, group), starts', acked)
  {
    var s' := DestroyGroup(s, group);
    forall name | name in s'.groups
      ensures GroupValid(s', starts'[name], s'.groups[name], name, acked)
    {
      assert GroupValid(s, starts[name], s.groups[name], name, acked);
    }
  }

  /** Steps that leave the set of attached groups alone. */
  lemma StepKeepsValid(s: Store, starts: map<string, Id>, acked: set<(string, Id)>, step: Step)
    requires ValidLog(s.stream, starts, acked) && Enabled(s, step)
    requires !step.CreateGroup? && !step.RunRetireGroup?
    requires forall g, id | Releases(s, step, g, id) :: (g, id) in acked
    ensures ValidLog(Apply(s, step).stream, starts, acked)
  {
    match step
    case Add(id, fields) => AddKeepsValid(s.stream, starts, acked, id, fields);
    case Deliver(group, consumer, id) => DeliverKeepsValid(s.stream, starts, acked, group, consumer, id);
    case Claim(group, consumer, id) =>
      assert GroupValid(s.stream, starts[group], s.stream.groups[group], group, acked);
      OwnershipKeepsValid(s.stream, starts, acked, group, ClaimEntry(s.stream, group, consumer, id).groups[group]);
    case Ack(group, id) =>
      RenderRoundTrip(id);
      AckOnlyReleases(s.stream, group, id);
      assert OwnedBy(s.stream, group, id) ==> Releases(s, step, group, id);
      AckKeepsValid(s.stream, starts, acked, group, id);
    case RunAckDelete(group, messageId) =>
      AckDeleteReleases(s.stream, group, messageId);
      if ParseId(messageId).Some? && OwnedBy(s.stream, group, ParseId(messageId).value) {
        assert Releases(s, step, group, ParseId(messageId).value);
      }
      AckDeleteKeepsValid(s.stream, starts, acked, group, messageId);
    case RunConfirmedDelete(messageId) =>
      if ParseId(messageId).Some? {
        DeleteKeepsValid(s.stream, starts, acked, ParseId(messageId).value);
      }
    case RunFanoutAckDelete(group, messageId, key, member) =>
      FanoutAckKeepsValid(s, starts, acked, step);
    case RunReenqueue(group, messageId, key, prefix, fields, target) =>
      ReenqueueKeepsValid(s, starts, acked, step);
    case RunLegacyFanout(key, prefix, fields, target) =>
      AddKeepsValid(s.stream, starts, acked, target, fields);
    case RunRetireConsumer(group, consumer, idle, minimumIdle) =>
      OwnershipKeepsValid(s.stream, starts, acked, group,
                          RetireConsumer(s.stream, group, consumer, idle, minimumIdle).groups[group]);
  }

  lemma AckDeleteReleases(s: Stream, group: string, messageId: string)
    ensures AckDelete(s, group, messageId).groups.Keys == s.groups.Keys
    ensures ParseId(messageId).Some? ==> !OwnedBy(AckDelete(s, group, messageId), group, ParseId(messageId).value)
  {
    if ParseId(messageId).Some? {
      AckOnlyReleases(s, group, ParseId(messageId).value);
    }
  }

  lemma FanoutAckKeepsValid(s: Store, starts: map<string, Id>, acked: set<(string, Id)>, step: Step)
    requires ValidLog(s.stream, starts, acked) && step.RunFanoutAckDelete? && Enabled(s, step)
    requires forall g, id | Releases(s, step, g, id) :: (g, id) in acked
    ensures ValidLog(Apply(s, step).stream, starts, acked)
  {
    if ParseId(step.messageId).Some? {
      var id := ParseId(step.messageId).value;
      AckOnlyReleases(s.stream, step.group, id);
      assert OwnedBy(s.stream, step.group, id) ==> Releases(s, step, step.group, id);
      AckKeepsValid(s.stream, starts, acked, step.group, id);
      DeleteKeepsValid(XAck(s.stream, step.group, id), starts, acked, id);
    }
  }

  lemma ReenqueueKeepsValid(s: Store, starts: map<string, Id>, acked: set<(string, Id)>, step: Step)
    requires ValidLog(s.stream, starts, acked) && step.RunReenqueue? && Enabled(s, step)
    requires forall g, id | Releases(s, step, g, id) :: (g, id) in acked
    ensures ValidLog(Apply(s, step).stream, starts, acked)
  {
    if step.prefix + step.messageId in Members(s.markers, step.key) {
      var added := XAdd(s.stream, step.target, step.fields);
      AddKeepsValid(s.stream, starts, acked, step.target, step.fields);
      AckDeleteReleases(added, step.group, step.messageId);
      if ParseId(step.messageId).Some? && OwnedBy(added, step.group, ParseId(step.messageId).value) {
        assert Releases(s, step, step.group, ParseId(step.messageId).value);
      }
      AckDeleteKeepsValid(added, starts, acked, step.group, step.messageId);
    }
  }

  lemma StepKeepsGroups(s: Store, step: Step)
    requires Enabled(s, step)
    requires !step.CreateGroup? && !step.RunRetireGroup?
    ensures Apply(s, step).stream.groups.Keys == s.stream.groups.Keys
  {
    match step
    case RunAckDelete(group, messageId) => AckDeleteReleases(s.stream, group, messageId);
    case RunReenqueue(group, messageId, key, prefix, fields, target) =>
      AckDeleteReleases(XAdd(s.stream, target, fields), group, messageId);
    case _ =>
  }

  lemma NextKeepsValid(w: World, step: Step, w': World)
    requires Valid(w) && Next(w, step, w')
    ensures Valid(w')
  {
    if step.CreateGroup? {
      MoreAcknowledgedStaysValid(w.store.stream, w.starts, w.acked, w'.acked);
      if step.group !in w.store.stream.groups {
        AttachKeepsValid(w.store.stream, w.starts, w'.starts, w'.acked, step.group, step.start);
      } else {
        assert w'.starts == w.starts;
      }
    } else if step.RunRetireGroup? {
      RetireKeepsValid(w, step, w');
    } else {
      StepKeepsGroups(w.store, step);
      assert w'.starts == w.starts;
      MoreAcknowledgedStaysValid(w.store.stream, w.starts, w.acked, w'.acked);
      forall g, id | Releases(w.store, step, g, id)
        ensures (g, id) in w'.acked
      {
      }
      StepKeepsValid(w.store, w.starts, w'.acked, step);
    }
  }

  lemma RetireKeepsValid(w: World, step: Step, w': World)
    requires Valid(w) && Next(w, step, w') && step.RunRetireGroup?
    ensures Valid(w')
  {
    var group, kept := step.intent.group, w.starts;
    if Retirable(w.store.stream, step.intent, step.observed) {
      kept := w.starts - {group};
      DestroyKeepsValid(w.store.stream, w.starts, kept, w.acked, group);
    }
    assert w'.starts == kept;
    MoreAcknowledgedStaysValid(w'.store.stream, kept, w.acked, w'.acked);
  }

  // ----- Whole runs -----

  ghost predicate Initial(w: World) {
    w.store.stream.entries == map[] && w.store.stream.groups == map[] && w.starts == map[] && w.acked == {}
  }

  ghost predicate Run(worlds: seq<World>, steps: seq<Step>) {
    && |worlds| == |steps| + 1
    && Initial(worlds[0])
    && forall i | 0 <= i < |steps| :: Next(worlds[i], steps[i], worlds[i + 1])
  }

  lemma {:induction false} RunStaysValid(worlds: seq<World>, steps: seq<Step>, k: nat)
    requires Run(worlds, steps) && k <= |steps|
    ensures Valid(worlds[k])
  {
    if k > 0 {
      RunStaysValid(worlds, steps, k - 1);
      NextKeepsValid(worlds[k - 1], steps[k - 1], worlds[k]);
    }
  }

  /** In every run, an entry that leaves was acknowledged by every group then attached that started below it. */
  lemma RemovedEntryWasAcknowledged(worlds: seq<World>, steps: seq<Step>, k: nat, id: Id, group: string)
    requires Run(worlds, steps) && k < |steps|
    requires id in worlds[k].store.stream.entries && id !in worlds[k + 1].store.stream.entries
    requires group in worlds[k].starts && Less(worlds[k].starts[group], id)
    ensures (group, id) in worlds[k + 1].acked
  {
    var w, step, w' := worlds[k], steps[k], worlds[k + 1];
    RunStaysValid(worlds, steps, k);
    EntryLeavesOnlyWhenConfirmed(w.store, step, id);
    assert GroupValid(w.store.stream, w.starts[group], w.store.stream.groups[group], group, w.acked);
    assert Accounted(w.starts[group], w.store.stream.groups[group], group, id, w.acked);
    assert GroupConfirms(w'.store.stream.groups[group], id);
    PendingLeavesByAck(w.store, step, group, id);
  }

  /** While a removal happens, a group's position stands and a pending record vanishes only by its own XACK. */
  lemma PendingLeavesByAck(s: Store, step: Step, group: string, id: Id)
    requires Enabled(s, step) && group in s.stream.groups
    requires id in s.stream.entries && id !in Apply(s, step).stream.entries
    ensures Apply(s, step).stream.groups.Keys == s.stream.groups.Keys
    ensures Apply(s, step).stream.groups[group].lastDelivered == s.stream.groups[group].lastDelivered
    ensures OwnedBy(s.stream, group, id) && !OwnedBy(Apply(s, step).stream, group, id) ==> Releases(s, step, group, id)
  {
    hide AllGroupsConfirm, ParseId, RenderId, Less, Members, Retirable, ConsumerRetirable;
    hide AckDelete, FanoutAckDelete, XAck, IsNextFor, FaithfulLag, SAdd, SRem;
    match step
    case RunAckDelete(g, messageId) =>
      AckDeleteEffect(s.stream, g, messageId);
    case RunFanoutAckDelete(g, messageId, key, member) =>
      FanoutAckDeleteEffect(s, g, messageId, key, member);
    case RunReenqueue(g, messageId, key, prefix, fields, target) =>
      AckDeleteEffect(XAdd(s.stream, target, fields), g, messageId);
    case Ack(g, e) =>
      AckOnlyReleases(s.stream, g, e);
    case _ =>
  }

  /** The log is honest: each acknowledgement it holds was an XACK, made while the group stayed attached. */
  lemma {:induction false} LoggedAcknowledgementWasAnXAck(worlds: seq<World>, steps: seq<Step>, k: nat, id: Id,
      group: string)
    requires Run(worlds, steps) && k <= |steps| && (group, id) in worlds[k].acked
    ensures exists j ::
      && 0 <= j < k && Enabled(worlds[j].store, steps[j]) && Releases(worlds[j].store, steps[j], group, id)
      && forall i | j < i <= k :: group in worlds[i].starts
  {
    assert Next(worlds[k - 1], steps[k - 1], worlds[k]);
    if Releases(worlds[k - 1].store, steps[k - 1], group, id) {
    } else {
      LoggedAcknowledgementWasAnXAck(worlds, steps, k - 1, id, group);
    }
  }

  /** A group leaves only by retirement, and only after confirming every entry then present. */
  lemma GroupLeavesOnlyAfterConfirmingAll(s: Store, step: Step, group: string)
    requires Enabled(s, step)
    requires group in s.stream.groups && group !in Apply(s, step).stream.groups
    ensures forall id | id in s.stream.entries :: GroupConfirms(s.stream.groups[group], id)
    ensures Apply(s, step).stream.entries == s.stream.entries
  {
    if step.RunRetireGroup? {
      RetiredGroupConfirmedEverything(s.stream, step.intent, step.observed);
    } else if !step.CreateGroup? {
      StepKeepsGroups(s, step);
    }
  }

  /** In every run an entry carries, as long as it is there, the fields it was added with. */
  lemma {:induction false} EntryCarriesWhatWasAdded(worlds: seq<World>, steps: seq<Step>, k: nat, id: Id)
    requires Run(worlds, steps) && k <= |steps| && id in worlds[k].store.stream.entries
    ensures exists j ::
      && 0 <= j < k && Adds(worlds[j].store, steps[j]) == Some((id, worlds[k].store.stream.entries[id]))
      && forall i | j < i <= k ::
           id in worlds[i].store.stream.entries &&
           worlds[i].store.stream.entries[id] == worlds[k].store.stream.entries[id]
  {
    hide Adds, Enabled, Apply;
    var w, step := worlds[k - 1], steps[k - 1];
    assert Next(worlds[k - 1], steps[k - 1], worlds[k - 1 + 1]);
    EntriesKeepTheirFields(w.store, step, id);
    if Adds(w.store, step).Some? && Adds(w.store, step).value.0 == id {
      assert Adds(w.store, step) == Some((id, worlds[k].store.stream.entries[id]));
    } else {
      EntryCarriesWhatWasAdded(worlds, steps, k - 1, id);
    }
  }

  // ----- Convergence -----

  ghost predicate FixedGroupsRun(stores: seq<Store>, steps: seq<Step>) {
    && |stores| == |steps| + 1
    && forall i | 0 <= i < |steps| ::
         && !steps[i].CreateGroup? && !steps[i].RunRetireGroup?
         && Enabled(stores[i], steps[i]) && stores[i + 1] == Apply(stores[i], steps[i])
  }

  /** The group that runs ack-delete on this entry in this step, having been delivered it. */
  ghost predicate Settles(s: Store, step: Step, group: string, id: Id) {
    && step.RunAckDelete? && step.group == group && ParseId(step.messageId) == Some(id)
    && group in s.stream.groups && AtLeast(s.stream.groups[group].lastDelivered, id)
  }

  /** The groups that have settled the entry within the first k steps. */
  ghost function Settled(stores: seq<Store>, steps: seq<Step>, k: nat, id: Id): set<string>
    requires FixedGroupsRun(stores, steps) && k <= |steps|
  {
    if k == 0 then {}
    else Settled(stores, steps, k - 1, id) + SettledBy(stores[k - 1], steps[k - 1], id)
  }

  ghost function SettledBy(s: Store, step: Step, id: Id): set<string> {
    set g | g in s.stream.groups && Settles(s, step, g, id)
  }

  lemma ConfirmationIsKept(s: Store, step: Step, group: string, id: Id)
    requires Enabled(s, step) && !step.CreateGroup? && !step.RunRetireGroup?
    requires group in s.stream.groups && GroupConfirms(s.stream.groups[group], id)
    ensures group in Apply(s, step).stream.groups && GroupConfirms(Apply(s, step).stream.groups[group], id)
  {
    hide AllGroupsConfirm, ParseId, RenderId, Members, Retirable, ConsumerRetirable;
    hide AckDelete, FanoutAckDelete, XAck;
    match step
    case RunAckDelete(g, messageId) =>
      AckDeleteEffect(s.stream, g, messageId);
    case RunFanoutAckDelete(g, messageId, key, member) =>
      FanoutAckDeleteEffect(s, g, messageId, key, member);
    case RunReenqueue(g, messageId, key, prefix, fields, target) =>
      AckDeleteEffect(XAdd(s.stream, target, fields), g, messageId);
    case Ack(g, e) =>
      AckOnlyReleases(s.stream, g, e);
    case _ =>
  }

  lemma EntryIsNeverReadded(s: Store, step: Step, id: Id)
    requires Enabled(s, step) && AtLeast(s.stream.lastId, id)
    ensures AtLeast(Apply(s, step).stream.lastId, id)
    ensures id in Apply(s, step).stream.entries ==> id in s.stream.entries
  {
    hide AllGroupsConfirm, ParseId, RenderId, Members, Retirable, ConsumerRetirable;
    hide AckDelete, FanoutAckDelete, XAck;
    match step
    case RunAckDelete(g, messageId) =>
      AckDeleteEffect(s.stream, g, messageId);
    case RunFanoutAckDelete(g, messageId, key, member) =>
      FanoutAckDeleteEffect(s, g, messageId, key, member);
    case RunReenqueue(g, messageId, key, prefix, fields, target) =>
      AckDeleteEffect(XAdd(s.stream, target, fields), g, messageId);
    case Ack(g, e) =>
      AckOnlyReleases(s.stream, g, e);
    case _ =>
  }

  lemma LastSettlementDeletes(s: Store, step: Step, group: string, id: Id)
    requires Enabled(s, step) && Settles(s, step, group, id)
    requires 1 <= |s.stream.groups| <= MAX_SAFE_TERMINAL_CONSUMER_GROUPS
    requires forall g | g in s.stream.groups && g != group :: GroupConfirms(s.stream.groups[g], id)
    ensures id !in Apply(s, step).stream.entries
  {
    AckOnlyReleases(s.stream, group, id);
    var acked := XAck(s.stream, group, id);
    assert |acked.groups.Keys| == |s.stream.groups.Keys|;
    assert AllGroupsConfirm(acked, id);
  }

  lemma SettlementConfirms(s: Store, step: Step, group: string, id: Id)
    requires Enabled(s, step) && Settles(s, step, group, id)
    ensures group in Apply(s, step).stream.groups && GroupConfirms(Apply(s, step).stream.groups[group], id)
  {
    AckOnlyReleases(s.stream, group, id);
  }

  lemma {:induction false} SettledGroupsConfirm(stores: seq<Store>, steps: seq<Step>, k: nat, id: Id)
    requires FixedGroupsRun(stores, steps) && k <= |steps|
    requires AtLeast(stores[0].stream.lastId, id)
    ensures AtLeast(stores[k].stream.lastId, id)
    ensures stores[k].stream.groups.Keys == stores[0].stream.groups.Keys
    ensures forall g | g in Settled(stores, steps, k, id) ::
              g in stores[k].stream.groups && GroupConfirms(stores[k].stream.groups[g], id)
  {
    if k > 0 {
      SettledGroupsConfirm(stores, steps, k - 1, id);
      var s, step := stores[k - 1], steps[k - 1];
      EntryIsNeverReadded(s, step, id);
      StepKeepsGroups(s, step);
      forall g | g in Settled(stores, steps, k, id)
        ensures g in stores[k].stream.groups && GroupConfirms(stores[k].stream.groups[g], id)
      {
        if g in Settled(stores, steps, k - 1, id) {
          ConfirmationIsKept(s, step, g, id);
        } else {
          SettlementConfirms(s, step, g, id);
        }
      }
    }
  }

  /**
   With 1 to 32 groups, once each has run ack-delete on an entry it was delivered, the entry is gone:
   in any order, with repeats, and with any other steps in between.
   */
  lemma {:induction false} EntrySettledByAllGroupsIsGone(stores: seq<Store>, steps: seq<Step>, k: nat, id: Id)
    requires FixedGroupsRun(stores, steps) && k <= |steps|
    requires AtLeast(stores[0].stream.lastId, id)
    requires 1 <= |stores[0].stream.groups| <= MAX_SAFE_TERMINAL_CONSUMER_GROUPS
    requires stores[0].stream.groups.Keys <= Settled(stores, steps, k, id)
    ensures id !in stores[k].stream.entries
  {
    if k == 0 {
      assert false;
    }
    var s, step := stores[k - 1], steps[k - 1];
    SettledGroupsConfirm(stores, steps, k - 1, id);
    EntryIsNeverReadded(s, step, id);
    if stores[0].stream.groups.Keys <= Settled(stores, steps, k - 1, id) {
      EntrySettledByAllGroupsIsGone(stores, steps, k - 1, id);
    } else {
      var last :| last in stores[0].stream.groups && last !in Settled(stores, steps, k - 1, id);
      assert |s.stream.groups.Keys| == |stores[0].stream.groups.Keys|;
      LastSettlementDeletes(s, step, last, id);
    }
  }
}
