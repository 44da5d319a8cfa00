/**
 What the binders and the validator decide, said of the constraints as they are stored and of the handles
 themselves: how many other people a text must mention, who counts as a friend, and which plans pass.
 */
module FriendMentions {
  import opened Results
  import opened ActionPlan

  function Identities(key: Identity, handles: seq<string>): set<string> {
    set h | h in handles :: key(h)
  }

  /** The people mentioned beside those the source names and those who are followed. */
  function Friends(key: Identity, mentions: seq<string>, source: seq<string>, followed: seq<string>): set<string> {
    Identities(key, mentions) - Identities(key, source) - Identities(key, followed)
  }

  /** No two handles are of one person. */
  predicate AllDifferent(key: Identity, mentions: seq<string>) {
    forall i, j | 0 <= i < j < |mentions| :: key(mentions[i]) != key(mentions[j])
  }

  /** All are different people, everyone the source names is among them, and the friends are as many as asked. */
  predicate EntryMet(key: Identity, entry: RawEntry, mentions: seq<string>, source: seq<string>, followed: seq<string>)
  {
    && entry.Entry? && entry.count.Some?
    && AllDifferent(key, mentions)
    && Identities(key, source) <= Identities(key, mentions)
    && (entry.mode == "exact" ==> |Friends(key, mentions, source, followed)| == entry.count.value)
    && (entry.mode == "minimum" ==> |Friends(key, mentions, source, followed)| >= entry.count.value)
  }

  lemma {:induction false} KeySetIsIdentities(key: Identity, handles: seq<string>)
    ensures KeySet(Keys(key, handles)) == Identities(key, handles)
  {
    forall k
      ensures k in KeySet(Keys(key, handles)) <==> k in Identities(key, handles)
    {
      if k in Keys(key, handles) {
        var i :| 0 <= i < |handles| && Keys(key, handles)[i] == k;
        assert handles[i] in handles && key(handles[i]) == k;
      }
      if h :| h in handles && key(h) == k {
        var i :| 0 <= i < |handles| && handles[i] == h;
        assert Keys(key, handles)[i] == k;
      }
    }
  }

  lemma DistinctKeysAreDistinctPeople(key: Identity, handles: seq<string>)
    ensures Distinct(Keys(key, handles)) <==> AllDifferent(key, handles)
  {
    assert forall i | 0 <= i < |handles| :: Keys(key, handles)[i] == key(handles[i]);
  }

  lemma Covers(key: Identity, mentions: seq<string>, source: seq<string>)
    ensures (forall i | 0 <= i < |source| :: key(source[i]) in KeySet(Keys(key, mentions))) <==>
      Identities(key, source) <= Identities(key, mentions)
  {
    KeySetIsIdentities(key, mentions);
    KeySetIsIdentities(key, source);
    CoversByKeys(key, mentions, source);
  }

  lemma OthersDiffer(key: Identity, mentions: seq<string>)
    requires AllDifferent(key, mentions) && mentions != []
    ensures AllDifferent(key, mentions[1..])
    ensures Identities(key, mentions) == Identities(key, mentions[1..]) + {key(mentions[0])}
    ensures key(mentions[0]) !in Identities(key, mentions[1..])
  {
    var rest := mentions[1..];
    assert forall i | 0 <= i < |rest| :: rest[i] == mentions[i + 1];
    assert mentions == [mentions[0]] + rest;
    OneMorePerson(key, mentions[0], rest);
  }

  /** Of distinct people, as many handles are friends' as there are friends. */
  lemma {:induction false} FriendsAreCounted(key: Identity, mentions: seq<string>, source: set<string>,
                                            follow: set<string>)
    requires AllDifferent(key, mentions)
    ensures |FriendHandles(key, mentions, source, follow)| == |Identities(key, mentions) - source - follow|
  {
    hide Identities, AllDifferent;
    if mentions == [] {
      Nobody(key, source, follow);
    } else {
      OthersDiffer(key, mentions);
      FriendsAreCounted(key, mentions[1..], source, follow);
      OneMoreFriend(Identities(key, mentions), Identities(key, mentions[1..]), key(mentions[0]), source, follow);
    }
  }

  lemma Nobody(key: Identity, source: set<string>, follow: set<string>)
    ensures Identities(key, []) - source - follow == {}
  {
  }

  lemma OneMoreFriend(people: set<string>, others: set<string>, p: string, source: set<string>, follow: set<string>)
    requires people == others + {p} && p !in others
    ensures |people - source - follow| == |others - source - follow| + if p !in source && p !in follow then 1 else 0
  {
    var friends := others - source - follow;
    if p !in source && p !in follow {
      assert people - source - follow == friends + {p};
    } else {
      assert people - source - follow == friends;
    }
  }

  lemma OneMorePerson(key: Identity, first: string, rest: seq<string>)
    requires forall j | 0 <= j < |rest| :: key(first) != key(rest[j])
    ensures Identities(key, [first] + rest) == Identities(key, rest) + {key(first)}
    ensures key(first) !in Identities(key, rest)
  {
    assert forall h :: h in [first] + rest <==> h == first || h in rest;
  }

  lemma FitsIffMet(key: Identity, entry: RawEntry, mentions: seq<string>, source: seq<string>, followed: seq<string>)
    requires EntryValid(entry)
    ensures Fits(key, mentions, source, KeySet(Keys(key, followed)),
                 Constraint(entry.mode == "exact", entry.count.value)) <==>
      EntryMet(key, entry, mentions, source, followed)
  {
    hide Distinct, FriendHandles;
    DistinctKeysAreDistinctPeople(key, mentions);
    Covers(key, mentions, source);
    KeySetIsIdentities(key, source);
    KeySetIsIdentities(key, followed);
    if AllDifferent(key, mentions) {
      FriendsAreCounted(key, mentions, KeySet(Keys(key, source)), KeySet(Keys(key, followed)));
    }
  }

  // ----- When constraints are satisfied -----

  /** One stored entry is satisfied by the text of its action: it is bound as reviewed and meets the entry. */
  predicate NameSatisfied(key: Identity, payloads: Payloads, bound: Requirements, source: Requirements,
      entries: map<string, RawEntry>, name: string, action: TextAction)
  {
    name in entries ==>
      && action in payloads.texts && payloads.texts[action].mentions == Some(bound.Of(action).mentions)
      && EntryMet(key, entries[name], bound.Of(action).mentions, source.Of(action).mentions,
                  source.followTargets + bound.followTargets)
  }

  predicate StoredEntryValid(entry: RawEntry) {
    entry.Entry? && entry.mode in {"exact", "minimum"} && entry.count.Some? && 0 < entry.count.value <= 32
  }

  /**
   Friend mentions are satisfied exactly when some are asked for, every entry is well formed, and each
   text mentions, bound as reviewed, the people its entry asks for.
   */
  lemma SatisfiedIffEveryEntryIs(key: Identity, payloads: Payloads, bound: Requirements, source: Option<Requirements>,
                                 raw: RawConstraints)
    ensures Satisfied(key, payloads, bound, source, raw) <==>
      && raw.RawObject? && raw.entries != map[]
      && (forall name | name in raw.entries :: name in {"commented", "reposted"} && StoredEntryValid(raw.entries[name]))
      && NameSatisfied(key, payloads, bound, OrNothing(source), raw.entries, "commented", Commented)
      && NameSatisfied(key, payloads, bound, OrNothing(source), raw.entries, "reposted", Reposted)
  {
    hide Fits, EntryMet, NameSatisfied, ActionSatisfied, ConstraintsOf, RawValid, StoredEntryValid;
    RawValidMeans(raw);
    if RawValid(raw) {
      AskedFor(raw);
      if raw.RawObject? {
        var origin := OrNothing(source);
        assert ActionName(Commented) == "commented" && ActionName(Reposted) == "reposted";
        ActionSatisfiedIff(key, payloads, bound, origin, raw, Commented);
        ActionSatisfiedIff(key, payloads, bound, origin, raw, Reposted);
        if NameSatisfied(key, payloads, bound, origin, raw.entries, "commented", Commented) &&
           NameSatisfied(key, payloads, bound, origin, raw.entries, "reposted", Reposted)
        {
          forall action | action in ConstraintsOf(raw)
            ensures ActionSatisfied(key, payloads, bound, origin, ConstraintsOf(raw), action)
          {
            assert action == Commented || action == Reposted;
          }
        }
      }
    }
  }

  lemma RawValidMeans(raw: RawConstraints)
    ensures RawValid(raw) <==>
      raw.RawNull? || (raw.RawObject? &&
        forall name | name in raw.entries :: name in {"commented", "reposted"} && StoredEntryValid(raw.entries[name]))
  {
  }

  lemma AskedFor(raw: RawConstraints)
    requires RawValid(raw)
    ensures ConstraintsOf(raw) == map[] <==> raw.RawNull? || raw.entries == map[]
    ensures raw.RawObject? ==> (Commented in ConstraintsOf(raw) <==> "commented" in raw.entries)
    ensures raw.RawObject? ==> (Reposted in ConstraintsOf(raw) <==> "reposted" in raw.entries)
  {
    assert ActionName(Commented) == "commented" && ActionName(Reposted) == "reposted";
    if raw.RawObject? {
      if name :| name in raw.entries {
        assert name == ActionName(Commented) || name == ActionName(Reposted);
        assert Commented in ConstraintsOf(raw) || Reposted in ConstraintsOf(raw);
      }
      if action :| action in ConstraintsOf(raw) {
        assert ActionName(action) in raw.entries;
      }
    }
  }

  lemma ActionSatisfiedIff(key: Identity, payloads: Payloads, bound: Requirements, source: Requirements,
                           raw: RawConstraints, action: TextAction)
    requires RawValid(raw) && raw.RawObject?
    ensures (action in ConstraintsOf(raw) ==>
               ActionSatisfied(key, payloads, bound, source, ConstraintsOf(raw), action)) <==>
      NameSatisfied(key, payloads, bound, source, raw.entries, ActionName(action), action)
  {
    hide Fits, EntryMet;
    if ActionName(action) in raw.entries {
      FitsIffMet(key, raw.entries[ActionName(action)], bound.Of(action).mentions, source.Of(action).mentions,
                 source.followTargets + bound.followTargets);
    }
    FollowedTogether(key, source.followTargets, bound.followTargets);
  }

  lemma FollowedTogether(key: Identity, a: seq<string>, b: seq<string>)
    ensures KeySet(Keys(key, a + b)) == KeySet(Keys(key, a)) + KeySet(Keys(key, b))
  {
    KeySetIsIdentities(key, a);
    KeySetIsIdentities(key, b);
    KeySetIsIdentities(key, a + b);
    assert forall h :: h in a + b <==> h in a || h in b;
  }

  // ----- What is bound -----

  /** A reviewed text takes the place of what the source mentions exactly when it meets the stored entry. */
  lemma BindsIffMet(key: Identity, payloads: Payloads, requirements: Requirements, raw: RawConstraints,
                    action: TextAction)
    requires RawValid(raw)
    ensures var bound := FriendsBound(key, payloads, requirements, ConstraintsOf(raw));
      && bound.followTargets == requirements.followTargets
      && bound.Of(action).topicTags == requirements.Of(action).topicTags
      && bound.Of(action).mentions ==
        if raw.RawObject? && ActionName(action) in raw.entries && action in payloads.texts &&
           payloads.texts[action].mentions.Some? &&
           EntryMet(key, raw.entries[ActionName(action)], payloads.texts[action].mentions.value,
                    requirements.Of(action).mentions, requirements.followTargets)
        then payloads.texts[action].mentions.value else requirements.Of(action).mentions
  {
    hide Fits, EntryMet;
    if action in ConstraintsOf(raw) && action in payloads.texts && payloads.texts[action].mentions.Some? {
      FitsIffMet(key, raw.entries[ActionName(action)], payloads.texts[action].mentions.value,
                 requirements.Of(action).mentions, requirements.followTargets);
    }
  }

  // ----- When a plan passes -----

  predicate AskedOf(raw: RawConstraints, name: string) {
    raw.RawObject? && name in raw.entries
  }

  /** The plan keeps the source's tags and its people; where friends are asked for it may name more, nobody twice. */
  predicate KeepsSource(key: Identity, asked: bool, source: Content, bound: Content) {
    && source.topicTags == bound.topicTags
    && if asked then
         Identities(key, source.mentions) <= Identities(key, bound.mentions) && AllDifferent(key, bound.mentions)
       else source.mentions == bound.mentions
  }

  /** The reviewed text carries what the plan binds, and nothing is bound for a text that is not there. */
  predicate Repeats(payloads: Payloads, action: TextAction, content: Content) {
    if action in payloads.texts then payloads.texts[action] == Payload(content.topicTags, Some(content.mentions))
    else content == Content([], [])
  }

  /**
   Any plan, however it came about, passes exactly when it follows everyone the source asks to follow, keeps the
   source's content, is repeated by the reviewed texts, follows the reviewed handle alone if following is
   required and nobody otherwise, and satisfies each stored friend entry.
   */
  lemma PlanPassesIff(key: Identity, followRequired: bool, payloads: Payloads, bound: Requirements,
                      source: Requirements, raw: RawConstraints)
    requires RawValid(raw)
    ensures PlanPasses(key, followRequired, payloads, bound, source, raw) <==>
      && Identities(key, source.followTargets) <= Identities(key, bound.followTargets)
      && KeepsSource(key, AskedOf(raw, "commented"), source.commented, bound.commented)
      && KeepsSource(key, AskedOf(raw, "reposted"), source.reposted, bound.reposted)
      && Repeats(payloads, Commented, bound.commented) && Repeats(payloads, Reposted, bound.reposted)
      && (if followRequired then exists h :: bound.followTargets == [h] && payloads.followHandle == Some(h)
          else bound.followTargets == [])
      && (raw.RawObject? ==>
            && NameSatisfied(key, payloads, bound, source, raw.entries, "commented", Commented)
            && NameSatisfied(key, payloads, bound, source, raw.entries, "reposted", Reposted))
  {
    hide Satisfied, SameAsSource, KeepsSource, NameSatisfied, RawValid, ConstraintsOf, FollowAgrees, EntryMet, Repeats;
    hide PayloadTags, PayloadMentions;
    RawValidMeans(raw);
    AskedFor(raw);
    Covers(key, bound.followTargets, source.followTargets);
    SameAsSourceIff(key, source.commented, bound.commented, AskedOf(raw, "commented"));
    SameAsSourceIff(key, source.reposted, bound.reposted, AskedOf(raw, "reposted"));
    RepeatsIff(payloads, Commented, bound.commented);
    RepeatsIff(payloads, Reposted, bound.reposted);
    FollowAgreesMeans(followRequired, payloads, bound);
    SatisfiedIffEveryEntryIs(key, payloads, bound, Some(source), raw);
    if raw.RawObject? && raw.entries == map[] {
      NothingAsked(key, payloads, bound, source, raw.entries);
    }
  }

  lemma NothingAsked(key: Identity, payloads: Payloads, bound: Requirements, source: Requirements,
                     entries: map<string, RawEntry>)
    requires entries == map[]
    ensures NameSatisfied(key, payloads, bound, source, entries, "commented", Commented)
    ensures NameSatisfied(key, payloads, bound, source, entries, "reposted", Reposted)
  {
  }

  lemma SameAsSourceIff(key: Identity, source: Content, bound: Content, asked: bool)
    ensures SameAsSource(key, source, bound, asked) <==> KeepsSource(key, asked, source, bound)
  {
    hide Distinct, Keys, KeySet, Identities;
    DistinctKeysAreDistinctPeople(key, bound.mentions);
    Covers(key, bound.mentions, source.mentions);
  }

  lemma RepeatsIff(payloads: Payloads, action: TextAction, content: Content)
    ensures Repeats(payloads, action, content) <==>
      PayloadTags(payloads, action) == content.topicTags && PayloadMentions(payloads, action) == Some(content.mentions)
  {
  }

  lemma FollowAgreesMeans(followRequired: bool, payloads: Payloads, bound: Requirements)
    ensures FollowAgrees(followRequired, payloads, bound) <==>
      if followRequired then exists h :: bound.followTargets == [h] && payloads.followHandle == Some(h)
      else bound.followTargets == []
  {
    if followRequired && FollowAgrees(followRequired, payloads, bound) {
      assert bound.followTargets == [bound.followTargets[0]];
    }
  }
}
