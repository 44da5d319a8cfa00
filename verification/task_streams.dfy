/**
 One Redis stream with its consumer groups and the fan-out marker sets beside it,
 the Redis commands the retention scripts use, and the scripts themselves.
 Functions give the effect of each command and script as a value;
 class RetentionScripts runs them in place, comparing ids as strings the way the Lua does.
 */
module TaskStreams {
  import opened Results
  import opened StreamIds

  const MAX_SAFE_TERMINAL_CONSUMER_GROUPS := 32

  /** A group's last-delivered-id, its pending entries list (entry to owning consumer), its consumers. */
  datatype Group = Group(lastDelivered: Id, pending: map<Id, string>, consumers: set<string>)

  datatype Stream = Stream(entries: map<Id, seq<string>>, lastId: Id, groups: map<string, Group>)

  datatype Store = Store(stream: Stream, markers: map<string, set<string>>)

  /** A script either replies or is aborted by a Redis error; effects before the error stay. */
  datatype Reply<+T> = Reply(value: T) | ScriptError

  // ----- Redis commands -----

  function XAdd(s: Stream, id: Id, fields: seq<string>): Stream {
    s.(entries := s.entries[id := fields], lastId := id)
  }

  predicate OwnedBy(s: Stream, group: string, id: Id) {
    group in s.groups && id in s.groups[group].pending
  }

  function XAck(s: Stream, group: string, id: Id): Stream {
    if OwnedBy(s, group, id) then
      var g := s.groups[group];
      s.(groups := s.groups[group := g.(pending := g.pending - {id})])
    else s
  }

  function XDel(s: Stream, id: Id): Stream {
    s.(entries := s.entries - {id})
  }

  function Members(m: map<string, set<string>>, key: string): set<string> {
    if key in m then m[key] else {}
  }

  function SAdd(m: map<string, set<string>>, key: string, member: string): map<string, set<string>> {
    m[key := Members(m, key) + {member}]
  }

  /** Redis drops a set key together with its last member. */
  function SRem(m: map<string, set<string>>, key: string, member: string): map<string, set<string>> {
    var rest := Members(m, key) - {member};
    if key !in m then m
    else if rest == {} then m - {key}
    else m[key := rest]
  }

  // ----- Group confirmation -----

  predicate GroupConfirms(g: Group, id: Id) {
    AtLeast(g.lastDelivered, id) && id !in g.pending
  }

  ghost predicate AllGroupsConfirm(s: Stream, id: Id) {
    && 1 <= |s.groups| <= MAX_SAFE_TERMINAL_CONSUMER_GROUPS
    && forall name | name in s.groups :: GroupConfirms(s.groups[name], id)
  }

  ghost function DeleteIfConfirmed(s: Stream, id: Id): Stream {
    if AllGroupsConfirm(s, id) then XDel(s, id) else s
  }

  // ----- Scripts, as functions of the store -----

  ghost function AckDelete(s: Stream, group: string, messageId: string): Stream {
    match ParseId(messageId)
    case None => s
    case Some(id) => DeleteIfConfirmed(XAck(s, group, id), id)
  }

  ghost function ConfirmedDelete(s: Stream, messageId: string): Stream {
    match ParseId(messageId)
    case None => s
    case Some(id) => DeleteIfConfirmed(s, id)
  }

  ghost function FanoutAckDelete(s: Store, group: string, messageId: string, key: string, member: string): Store {
    match ParseId(messageId)
    case None => s
    case Some(id) =>
      var acked := XAck(s.stream, group, id);
      if member in Members(s.markers, key) && AllGroupsConfirm(acked, id)
      then Store(XDel(acked, id), SRem(s.markers, key, member))
      else s.(stream := acked)
  }

  ghost function Reenqueue(s: Store, group: string, messageId: string, key: string, prefix: string,
                           fields: seq<string>, target: Id): Store {
    if prefix + messageId !in Members(s.markers, key) then s
    else
      var added := XAdd(s.stream, target, fields);
      var markers := SRem(SAdd(s.markers, key, prefix + RenderId(target)), key, prefix + messageId);
      Store(AckDelete(added, group, messageId), markers)
  }

  /** The platform-lane effect of the legacy fan-out: the first call adds one entry and one marker. */
  ghost function LegacyFanout(s: Store, key: string, prefix: string, fields: seq<string>, target: Id): Store {
    if Members(s.markers, key) != {} then s
    else Store(XAdd(s.stream, target, fields), SAdd(s.markers, key, prefix + RenderId(target)))
  }

  // ----- Scripts, run in place -----

  class RetentionScripts {
    var stream: Stream
    var markers: map<string, set<string>>

    constructor (s: Store)
      ensures stream == s.stream && markers == s.markers
    {
      stream := s.stream;
      markers := s.markers;
    }

    /** The Lua loop over XINFO GROUPS, with the XPENDING probe of one id per group. */
    method AllGroupsConfirmed(messageId: string) returns (confirmed: bool)
      ensures confirmed <==> ParseId(messageId).Some? && AllGroupsConfirm(stream, ParseId(messageId).value)
    {
      if |stream.groups| == 0 || |stream.groups| > MAX_SAFE_TERMINAL_CONSUMER_GROUPS {
        return false;
      }
      var todo := stream.groups.Keys;
      while todo != {}
        invariant todo <= stream.groups.Keys
        invariant todo < stream.groups.Keys ==> ParseId(messageId).Some?
        invariant forall name | name in stream.groups && name !in todo ::
                    GroupConfirms(stream.groups[name], ParseId(messageId).value)
        decreases todo
      {
        var name :| name in todo;
        var g := stream.groups[name];
        RenderRoundTrip(g.lastDelivered);
        IdGteIsNumericOrder(RenderId(g.lastDelivered), messageId);
        if !IdGte(RenderId(g.lastDelivered), messageId) {
          return false;
        }
        var pending := ParseId(messageId).value in g.pending;
        if pending {
          return false;
        }
        todo := todo - {name};
      }
      return true;
    }

    method XAckCommand(group: string, id: Id) returns (acknowledged: nat)
      modifies this`stream
      ensures stream == XAck(old(stream), group, id)
      ensures acknowledged == if OwnedBy(old(stream), group, id) then 1 else 0
    {
      if group in stream.groups && id in stream.groups[group].pending {
        var g := stream.groups[group];
        stream := stream.(groups := stream.groups[group := g.(pending := g.pending - {id})]);
        return 1;
      }
      return 0;
    }

    method XDelCommand(id: Id) returns (deleted: nat)
      modifies this`stream
      ensures stream == XDel(old(stream), id)
      ensures deleted == if id in old(stream).entries then 1 else 0
    {
      deleted := if id in stream.entries then 1 else 0;
      stream := stream.(entries := stream.entries - {id});
    }

    method AckDeleteScript(group: string, messageId: string) returns (r: Reply<(nat, nat)>)
      modifies this`stream
      ensures stream == AckDelete(old(stream), group, messageId)
      ensures r.ScriptError? <==> ParseId(messageId).None?
      ensures r.Reply? ==>
                var id := ParseId(messageId).value;
                && r.value.0 == (if OwnedBy(old(stream), group, id) then 1 else 0)
                && r.value.1 == |old(stream).entries| - |stream.entries|
    {
      if ParseId(messageId).None? {
        return ScriptError;
      }
      var id := ParseId(messageId).value;
      var acknowledged := XAckCommand(group, id);
      var deleted := 0;
      var confirmed := AllGroupsConfirmed(messageId);
      if confirmed {
        EntryCountAfterDelete(stream, id);
        deleted := XDelCommand(id);
      }
      return Reply((acknowledged, deleted));
    }

    method ConfirmedDeleteScript(messageId: string) returns (r: Reply<(nat, nat)>)
      modifies this`stream
      ensures stream == ConfirmedDelete(old(stream), messageId)
      ensures r.Reply? && r.value.0 <= 1
      ensures r.value.0 == 1 <==>
        ParseId(messageId).Some? && AllGroupsConfirm(old(stream), ParseId(messageId).value)
      ensures r.value.1 == |old(stream).entries| - |stream.entries| && r.value.1 <= r.value.0
    {
      var confirmed, deleted := 0, 0;
      var all := AllGroupsConfirmed(messageId);
      if all {
        confirmed := 1;
        EntryCountAfterDelete(stream, ParseId(messageId).value);
        deleted := XDelCommand(ParseId(messageId).value);
      }
      return Reply((confirmed, deleted));
    }

    method FanoutAckDeleteScript(group: string, messageId: string, key: string, member: string)
      returns (r: Reply<(nat, nat)>)
      modifies this
      ensures Store(stream, markers) == FanoutAckDelete(Store(old(stream), old(markers)), group, messageId, key, member)
      ensures r.ScriptError? <==> ParseId(messageId).None?
      ensures r.Reply? ==>
                && r.value.0 == (if OwnedBy(old(stream), group, ParseId(messageId).value) then 1 else 0)
                && r.value.1 == |old(stream).entries| - |stream.entries|
    {
      var authorized := key in markers && member in markers[key];
      if ParseId(messageId).None? {
        return ScriptError;
      }
      var id := ParseId(messageId).value;
      var acknowledged := XAckCommand(group, id);
      var deleted := 0;
      if authorized {
        var confirmed := AllGroupsConfirmed(messageId);
        if confirmed {
          EntryCountAfterDelete(stream, id);
          deleted := XDelCommand(id);
          SRemCommand(key, member);
          if |Members(markers, key)| == 0 {
            markers := markers - {key};
          }
        }
      }
      return Reply((acknowledged, deleted));
    }

    method SRemCommand(key: string, member: string)
      modifies this`markers
      ensures markers == SRem(old(markers), key, member)
      ensures |Members(markers, key)| == 0 ==> markers - {key} == markers
    {
      if key in markers {
        var rest := markers[key] - {member};
        if rest == {} {
          markers := markers - {key};
        } else {
          markers := markers[key := rest];
        }
      }
    }

    method ReenqueueScript(group: string, messageId: string, key: string, prefix: string,
                           fields: seq<string>, target: Id) returns (r: Reply<Option<string>>)
      requires Less(stream.lastId, target)
      modifies this
      ensures Store(stream, markers) ==
              Reenqueue(Store(old(stream), old(markers)), group, messageId, key, prefix, fields, target)
      ensures var marked := prefix + messageId in Members(old(markers), key);
              && (r.ScriptError? <==> marked && ParseId(messageId).None?)
              && (r == Reply(None) <==> !marked)
              && (r.Reply? && marked ==> r.value == Some(RenderId(target)))
    {
      var sourceMember := prefix + messageId;
      if !(key in markers && sourceMember in markers[key]) {
        return Reply(None);
      }
      stream := stream.(entries := stream.entries[target := fields], lastId := target);
      var targetId := RenderId(target);
      markers := markers[key := markers[key] + {prefix + targetId}];
      SRemCommand(key, sourceMember);
      if ParseId(messageId).None? {
        return ScriptError;
      }
      var _ := XAckCommand(group, ParseId(messageId).value);
      var confirmed := AllGroupsConfirmed(messageId);
      if confirmed {
        var _ := XDelCommand(ParseId(messageId).value);
      }
      return Reply(Some(targetId));
    }
  }

  lemma EntryCountAfterDelete(s: Stream, id: Id)
    ensures |XDel(s, id).entries| == |s.entries| - if id in s.entries then 1 else 0
  {
    if id in s.entries {
      assert XDel(s, id).entries.Keys == s.entries.Keys - {id};
    } else {
      assert XDel(s, id).entries == s.entries;
    }
  }
}
