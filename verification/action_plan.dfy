/**
 Binding reviewed handles into an action plan, and the validator that later compares the plan with
 its source. Handles are compared by an identity key, an arbitrary function of the handle.
 */
module ActionPlan {
  import opened Results

  datatype TextAction = Commented | Reposted

  const TEXT_ACTIONS := [Commented, Reposted]

  datatype Content = Content(topicTags: seq<string>, mentions: seq<string>)

  datatype Requirements = Requirements(followTargets: seq<string>, commented: Content, reposted: Content) {
    function Of(action: TextAction): Content {
      if action.Commented? then commented else reposted
    }

    function With(action: TextAction, content: Content): Requirements {
      if action.Commented? then this.(commented := content) else this.(reposted := content)
    }
  }

  /** Requirements that are absent require nothing. */
  function OrNothing(requirements: Option<Requirements>): Requirements {
    if requirements.Some? then requirements.value else Requirements([], Content([], []), Content([], []))
  }

  /** The mentions of a payload, absent meaning empty; None when the field is not a list. */
  datatype Payload = Payload(topicTags: seq<string>, mentions: Option<seq<string>>)

  /** The reviewed payloads: the handle to follow, when it is a string, and the texts. */
  datatype Payloads = Payloads(followHandle: Option<string>, texts: map<TextAction, Payload>)

  // ----- Friend constraints -----

  datatype Constraint = Constraint(exact: bool, count: int)

  type Constraints = map<TextAction, Constraint>

  /** Constraints as stored: nothing, something that is not an object, or an object of entries. */
  datatype RawConstraints = RawNull | RawOther | RawObject(entries: map<string, RawEntry>)

  /** An entry that is not an object of exactly a mode and a count is malformed; a count may be no integer. */
  datatype RawEntry = Malformed | Entry(mode: string, count: Option<int>)

  function ActionName(action: TextAction): string {
    if action.Commented? then "commented" else "reposted"
  }

  predicate EntryValid(entry: RawEntry) {
    entry.Entry? && (entry.mode == "minimum" || entry.mode == "exact") && entry.count.Some? &&
      1 <= entry.count.value <= 32
  }

  predicate RawValid(raw: RawConstraints) {
    match raw
    case RawNull => true
    case RawOther => false
    case RawObject(entries) =>
      forall name | name in entries :: (name == "commented" || name == "reposted") && EntryValid(entries[name])
  }

  function ConstraintsOf(raw: RawConstraints): Constraints
    requires RawValid(raw)
  {
    if raw.RawNull? then map[] else
      map action | action in {Commented, Reposted} && ActionName(action) in raw.entries ::
        Constraint(raw.entries[ActionName(action)].mode == "exact", raw.entries[ActionName(action)].count.value)
  }

  method ValidateConstraints(raw: RawConstraints) returns (result: Result<Constraints, string>)
    ensures result.Ok? <==> RawValid(raw)
    ensures result.Ok? ==> result.value == ConstraintsOf(raw)
  {
    if raw.RawNull? {
      return Ok(map[]);
    }
    if raw.RawOther? || !(raw.entries.Keys <= {"commented", "reposted"}) {
      return Err("action_plan_friend_mention_requirements_invalid");
    }
    var constraints: Constraints := map[];
    for i := 0 to 2
      invariant forall j | 0 <= j < i && ActionName(TEXT_ACTIONS[j]) in raw.entries ::
        EntryValid(raw.entries[ActionName(TEXT_ACTIONS[j])])
      invariant forall action :: action in constraints <==>
        (exists j | 0 <= j < i :: TEXT_ACTIONS[j] == action) && ActionName(action) in raw.entries
      invariant forall action | action in constraints ::
        constraints[action] ==
          Constraint(raw.entries[ActionName(action)].mode == "exact", raw.entries[ActionName(action)].count.value)
    {
      var action := TEXT_ACTIONS[i];
      if ActionName(action) in raw.entries {
        var entry := raw.entries[ActionName(action)];
        if !EntryValid(entry) {
          return Err("action_plan_friend_mention_requirements_invalid");
        }
        constraints := constraints[action := Constraint(entry.mode == "exact", entry.count.value)];
      }
    }
    assert TEXT_ACTIONS[0] == Commented && TEXT_ACTIONS[1] == Reposted;
    return Ok(constraints);
  }

  predicate CountSatisfied(constraint: Constraint, actual: nat) {
    if constraint.exact then actual == constraint.count else actual >= constraint.count
  }

  // ----- Identities -----

  type Identity = string -> string

  function Keys(key: Identity, handles: seq<string>): (keys: seq<string>)
    ensures |keys| == |handles| && forall i | 0 <= i < |keys| :: keys[i] == key(handles[i])
  {
    if handles == [] then [] else [key(handles[0])] + Keys(key, handles[1..])
  }

  function KeySet(keys: seq<string>): set<string> {
    set k | k in keys
  }

  /** The test the code makes: as many keys as different keys. */
  predicate NoDuplicates(keys: seq<string>) {
    |keys| == |KeySet(keys)|
  }

  predicate Distinct(keys: seq<string>) {
    forall i, j | 0 <= i < j < |keys| :: keys[i] != keys[j]
  }

  lemma {:induction false} NoDuplicatesIsDistinct(keys: seq<string>)
    ensures NoDuplicates(keys) <==> Distinct(keys)
    ensures |KeySet(keys)| <= |keys|
  {
    if keys != [] {
      var rest := keys[1..];
      NoDuplicatesIsDistinct(rest);
      assert KeySet(keys) == KeySet(rest) + {keys[0]};
      if keys[0] in rest {
        assert KeySet(keys) == KeySet(rest);
        var j :| 0 <= j < |rest| && rest[j] == keys[0];
        assert keys[j + 1] == keys[0];
      } else {
        assert forall j | 0 < j < |keys| :: keys[j] == rest[j - 1];
      }
    }
  }

  /** The handles whose identity is neither excluded set's. */
  function FriendHandles(key: Identity, handles: seq<string>, source: set<string>, follow: set<string>): seq<string> {
    if handles == [] then [] else
      (if key(handles[0]) !in source && key(handles[0]) !in follow then [handles[0]] else [])
      + FriendHandles(key, handles[1..], source, follow)
  }

  function FriendKeys(keys: seq<string>, source: set<string>, follow: set<string>): seq<string> {
    if keys == [] then [] else
      (if keys[0] !in source && keys[0] !in follow then [keys[0]] else []) + FriendKeys(keys[1..], source, follow)
  }

  lemma {:induction false} SameFriendCount(key: Identity, handles: seq<string>, source: set<string>,
      follow: set<string>)
    ensures |FriendKeys(Keys(key, handles), source, follow)| == |FriendHandles(key, handles, source, follow)|
  {
    if handles != [] {
      SameFriendCount(key, handles[1..], source, follow);
      assert Keys(key, handles)[1..] == Keys(key, handles[1..]);
    }
  }

  /**
   The payload's handles are different people, cover those of the source, and leave the required
   number of friends beside them and the followed accounts.
   */
  predicate Fits(key: Identity, payload: seq<string>, source: seq<string>, follow: set<string>, constraint: Constraint)
  {
    && Distinct(Keys(key, payload))
    && (forall i | 0 <= i < |source| :: key(source[i]) in KeySet(Keys(key, payload)))
    && CountSatisfied(constraint, |FriendHandles(key, payload, KeySet(Keys(key, source)), follow)|)
  }

  // ----- The binders -----

  /** An explicit source target is kept; otherwise a reviewed handle of the right form is bound. */
  function FollowBound(isHandle: string -> bool, followRequired: bool, payloads: Payloads,
      source: Requirements): Requirements
  {
    if !followRequired || source.followTargets != [] then source
    else if payloads.followHandle.Some? && isHandle(payloads.followHandle.value) then
      source.(followTargets := [payloads.followHandle.value])
    else source
  }

  predicate Binds(key: Identity, payloads: Payloads, requirements: Requirements, constraints: Constraints,
      action: TextAction)
  {
    && action in constraints && action in payloads.texts && payloads.texts[action].mentions.Some?
    && Fits(key, payloads.texts[action].mentions.value, requirements.Of(action).mentions,
            KeySet(Keys(key, requirements.followTargets)), constraints[action])
  }

  /** The content of one action after binding: its mentions become the payload's exactly when these fit. */
  function ContentBound(key: Identity, payloads: Payloads, requirements: Requirements, constraints: Constraints,
                        action: TextAction): Content
  {
    if Binds(key, payloads, requirements, constraints, action) then
      requirements.Of(action).(mentions := payloads.texts[action].mentions.value)
    else requirements.Of(action)
  }

  function FriendsBound(key: Identity, payloads: Payloads, requirements: Requirements,
      constraints: Constraints): Requirements
  {
    Requirements(requirements.followTargets,
                 ContentBound(key, payloads, requirements, constraints, Commented),
                 ContentBound(key, payloads, requirements, constraints, Reposted))
  }

  method BindFriendMentions(key: Identity, payloads: Payloads, requirements: Requirements, raw: RawConstraints)
    returns (result: Result<Requirements, string>)
    ensures result.Ok? <==> RawValid(raw)
    ensures result.Ok? ==> result.value == FriendsBound(key, payloads, requirements, ConstraintsOf(raw))
  {
    var constraints :- ValidateConstraints(raw);
    var bound := requirements;
    var follow := KeySet(Keys(key, requirements.followTargets));
    for i := 0 to 2
      invariant bound.followTargets == requirements.followTargets
      invariant bound.commented ==
        if i > 0 then ContentBound(key, payloads, requirements, constraints, Commented) else requirements.commented
      invariant bound.reposted ==
        if i > 1 then ContentBound(key, payloads, requirements, constraints, Reposted) else requirements.reposted
    {
      var action := TEXT_ACTIONS[i];
      assert action == if i == 0 then Commented else Reposted;
      if action in constraints && action in payloads.texts && payloads.texts[action].mentions.Some? {
        var mentions := payloads.texts[action].mentions.value;
        var fits := PayloadFits(key, mentions, bound.Of(action).mentions, follow, constraints[action]);
        if fits {
          bound := bound.With(action, bound.Of(action).(mentions := mentions));
        }
      }
    }
    return Ok(bound);
  }

  method PayloadFits(key: Identity, payload: seq<string>, source: seq<string>, follow: set<string>,
      constraint: Constraint)
    returns (fits: bool)
    ensures fits == Fits(key, payload, source, follow, constraint)
  {
    var keys := Keys(key, payload);
    var sourceKeys := KeySet(Keys(key, source));
    NoDuplicatesIsDistinct(keys);
    CoversByKeys(key, payload, source);
    if !NoDuplicates(keys) || !(sourceKeys <= KeySet(keys)) {
      return false;
    }
    return CountSatisfied(constraint, |FriendHandles(key, payload, sourceKeys, follow)|);
  }

  lemma CoversByKeys(key: Identity, payload: seq<string>, source: seq<string>)
    ensures KeySet(Keys(key, source)) <= KeySet(Keys(key, payload)) <==>
      forall i | 0 <= i < |source| :: key(source[i]) in KeySet(Keys(key, payload))
  {
    forall i | 0 <= i < |source| ensures key(source[i]) in KeySet(Keys(key, source)) {
      assert Keys(key, source)[i] == key(source[i]);
    }
  }

  // ----- The test that friend mentions are satisfied -----

  predicate ActionSatisfied(key: Identity, payloads: Payloads, bound: Requirements, source: Requirements,
                            constraints: Constraints, action: TextAction)
    requires action in constraints
  {
    var follow := KeySet(Keys(key, source.followTargets)) + KeySet(Keys(key, bound.followTargets));
    && action in payloads.texts && payloads.texts[action].mentions == Some(bound.Of(action).mentions)
    && Fits(key, bound.Of(action).mentions, source.Of(action).mentions, follow, constraints[action])
  }

  /** Constraints that are malformed or empty are never satisfied. */
  predicate Satisfied(key: Identity, payloads: Payloads, bound: Requirements, source: Option<Requirements>,
      raw: RawConstraints)
  {
    && RawValid(raw) && ConstraintsOf(raw) != map[]
    && forall action | action in ConstraintsOf(raw) ::
         ActionSatisfied(key, payloads, bound, OrNothing(source), ConstraintsOf(raw), action)
  }

  method FriendMentionsSatisfied(key: Identity, payloads: Payloads, bound: Requirements, source: Option<Requirements>,
                                 raw: RawConstraints) returns (satisfied: bool)
    ensures satisfied == Satisfied(key, payloads, bound, source, raw)
  {
    var validated := ValidateConstraints(raw);
    if validated.Err? || validated.value == map[] {
      return false;
    }
    var constraints := validated.value;
    var origin := OrNothing(source);
    var follow := KeySet(Keys(key, origin.followTargets)) + KeySet(Keys(key, bound.followTargets));
    for i := 0 to 2
      invariant forall j | 0 <= j < i && TEXT_ACTIONS[j] in constraints ::
        ActionSatisfied(key, payloads, bound, origin, constraints, TEXT_ACTIONS[j])
    {
      var action := TEXT_ACTIONS[i];
      if action in constraints {
        var accepted := CheckAction(key, payloads, bound, origin, follow, constraints, action);
        if !accepted {
          return false;
        }
      }
    }
    assert TEXT_ACTIONS[0] == Commented && TEXT_ACTIONS[1] == Reposted;
    return true;
  }

  method CheckAction(key: Identity, payloads: Payloads, bound: Requirements, source: Requirements, follow: set<string>,
                     constraints: Constraints, action: TextAction) returns (accepted: bool)
    requires action in constraints
    requires follow == KeySet(Keys(key, source.followTargets)) + KeySet(Keys(key, bound.followTargets))
    ensures accepted == ActionSatisfied(key, payloads, bound, source, constraints, action)
  {
    if action !in payloads.texts || payloads.texts[action].mentions.None? {
      return false;
    }
    var mentions := payloads.texts[action].mentions.value;
    var keys := Keys(key, mentions);
    var sourceKeys := KeySet(Keys(key, source.Of(action).mentions));
    NoDuplicatesIsDistinct(keys);
    CoversByKeys(key, mentions, source.Of(action).mentions);
    if bound.Of(action).mentions != mentions || !NoDuplicates(keys) || !(sourceKeys <= KeySet(keys)) {
      return false;
    }
    SameFriendCount(key, mentions, sourceKeys, follow);
    return CountSatisfied(constraints[action], |FriendKeys(keys, sourceKeys, follow)|);
  }

  // ----- What binding achieves -----

  /** Binding the follow target and then the friends. */
  function BoundFrom(key: Identity, isHandle: string -> bool, followRequired: bool, payloads: Payloads,
                     source: Requirements, constraints: Constraints): Requirements
  {
    FriendsBound(key, payloads, FollowBound(isHandle, followRequired, payloads, source), constraints)
  }

  /** The handles whose identities do not count as friends: those the source or the binding follows. */
  function Followed(key: Identity, isHandle: string -> bool, followRequired: bool, payloads: Payloads,
                    source: Requirements): set<string>
  {
    KeySet(Keys(key, FollowBound(isHandle, followRequired, payloads, source).followTargets))
  }

  lemma FollowedCoversSource(key: Identity, isHandle: string -> bool, followRequired: bool, payloads: Payloads,
                             source: Requirements)
    ensures KeySet(Keys(key, source.followTargets)) + Followed(key, isHandle, followRequired, payloads, source)
         == Followed(key, isHandle, followRequired, payloads, source)
  {
    if source.followTargets == [] {
      assert KeySet(Keys(key, source.followTargets)) == {};
    }
  }

  /**
   Plans bound from their source satisfy non-empty friend constraints exactly when the reviewed
   payload of every constrained action fits its source.
   */
  lemma SatisfiedAfterBindingIff(key: Identity, isHandle: string -> bool, followRequired: bool, payloads: Payloads,
                                 source: Requirements, raw: RawConstraints)
    requires RawValid(raw) && ConstraintsOf(raw) != map[]
    ensures var constraints := ConstraintsOf(raw);
      var bound := BoundFrom(key, isHandle, followRequired, payloads, source, constraints);
      Satisfied(key, payloads, bound, Some(source), raw) <==>
        forall action | action in constraints ::
          action in payloads.texts && payloads.texts[action].mentions.Some? &&
          Fits(key, payloads.texts[action].mentions.value, source.Of(action).mentions,
               Followed(key, isHandle, followRequired, payloads, source), constraints[action])
  {
    FollowedCoversSource(key, isHandle, followRequired, payloads, source);
    var constraints := ConstraintsOf(raw);
    forall action | action in constraints
      ensures ActionSatisfied(key, payloads,
                              BoundFrom(key, isHandle, followRequired, payloads, source, constraints), source,
                              constraints, action)
        <==> Binds(key, payloads, FollowBound(isHandle, followRequired, payloads, source), constraints, action)
    {
      hide Fits;
    }
  }

  /** Binding the friends a second time changes nothing: bound handles are no longer friends. */
  lemma FriendBindingIsIdempotent(key: Identity, payloads: Payloads, requirements: Requirements, raw: RawConstraints)
    requires RawValid(raw)
    ensures var once := FriendsBound(key, payloads, requirements, ConstraintsOf(raw));
      FriendsBound(key, payloads, once, ConstraintsOf(raw)) == once
  {
    var constraints := ConstraintsOf(raw);
    var once := FriendsBound(key, payloads, requirements, constraints);
    forall action: TextAction ensures ContentBound(key, payloads, once, constraints, action) == once.Of(action) {
      if Binds(key, payloads, requirements, constraints, action) {
        NoFriendsLeft(key, once.Of(action).mentions, once.Of(action).mentions, KeySet(Keys(key, once.followTargets)));
      }
    }
  }

  lemma {:induction false} NoFriendsLeft(key: Identity, handles: seq<string>, all: seq<string>, follow: set<string>)
    requires forall h | h in handles :: h in all
    ensures FriendHandles(key, handles, KeySet(Keys(key, all)), follow) == []
  {
    if handles != [] {
      assert handles[0] in all;
      var i :| 0 <= i < |all| && all[i] == handles[0];
      assert Keys(key, all)[i] == key(handles[0]);
      NoFriendsLeft(key, handles[1..], all, follow);
    }
  }

  // ----- The validator -----

  function PayloadTags(payloads: Payloads, action: TextAction): seq<string> {
    if action in payloads.texts then payloads.texts[action].topicTags else []
  }

  function PayloadMentions(payloads: Payloads, action: TextAction): Option<seq<string>> {
    if action in payloads.texts then payloads.texts[action].mentions else Some([])
  }

  /** One action of the comparison between what the source asked for and what the plan binds. */
  predicate SameAsSource(key: Identity, source: Content, bound: Content, constrained: bool) {
    && source.topicTags == bound.topicTags
    && if constrained then
         Distinct(Keys(key, bound.mentions)) &&
         forall i | 0 <= i < |source.mentions| :: key(source.mentions[i]) in KeySet(Keys(key, bound.mentions))
       else source.mentions == bound.mentions
  }

  predicate ComparisonPasses(key: Identity, source: Requirements, bound: Requirements, constraints: Constraints) {
    && (forall i | 0 <= i < |source.followTargets| ::
        key(source.followTargets[i]) in KeySet(Keys(key, bound.followTargets)))
    && SameAsSource(key, source.commented, bound.commented, Commented in constraints)
    && SameAsSource(key, source.reposted, bound.reposted, Reposted in constraints)
  }

  predicate FollowAgrees(followRequired: bool, payloads: Payloads, bound: Requirements) {
    if followRequired then |bound.followTargets| == 1 && payloads.followHandle == Some(bound.followTargets[0])
    else bound.followTargets == []
  }

  predicate TagsRepeated(payloads: Payloads, requirements: Requirements) {
    && PayloadTags(payloads, Commented) == requirements.commented.topicTags
    && PayloadTags(payloads, Reposted) == requirements.reposted.topicTags
  }

  /** The validator's checks of a plan against its source, after the plan's own shape was validated. */
  predicate PlanPasses(key: Identity, followRequired: bool, payloads: Payloads, bound: Requirements,
      source: Requirements, raw: RawConstraints)
    requires RawValid(raw)
  {
    var constraints := ConstraintsOf(raw);
    && ComparisonPasses(key, source, bound, constraints)
    && TagsRepeated(payloads, bound)
    && PayloadMentions(payloads, Commented) == Some(bound.commented.mentions)
    && PayloadMentions(payloads, Reposted) == Some(bound.reposted.mentions)
    && FollowAgrees(followRequired, payloads, bound)
    && (constraints != map[] ==> Satisfied(key, payloads, bound, Some(source), raw))
  }

  function FollowError(followRequired: bool, bound: Requirements): string {
    if !followRequired then "action_plan_follow_target_without_action"
    else if |bound.followTargets| != 1 then "action_plan_follow_target_source_ambiguous"
    else "action_plan_follow_target_mismatch"
  }

  /** A plan without recorded source is compared with itself, and then may ask for no friends. */
  method ValidatePlan(key: Identity, followRequired: bool, required: set<TextAction>, payloads: Payloads,
      bound: Requirements, recorded: Option<Requirements>, raw: RawConstraints) returns (result: Result<(), string>)
    ensures result.Ok? <==>
      && RawValid(raw) && ConstraintsOf(raw).Keys <= required
      && (recorded.None? ==> ConstraintsOf(raw) == map[])
      && PlanPasses(key, followRequired, payloads, bound, if recorded.Some? then recorded.value else bound, raw)
  {
    hide ComparisonPasses, Satisfied, ConstraintsOf, PayloadTags, PayloadMentions, RawValid, FollowAgrees, FollowError;
    var constraints :- ValidateConstraints(raw);
    if !(constraints.Keys <= required) {
      return Err("action_plan_friend_mention_action_missing");
    }
    if recorded.None? && constraints != map[] {
      return Err("action_plan_friend_mention_requirement_binding_mismatch");
    }
    var source := if recorded.Some? then recorded.value else bound;
    var compared := CompareWithSource(key, source, bound, constraints);
    if !compared {
      return Err("action_plan_friend_mention_requirement_binding_mismatch");
    }
    var _ :- ComparePayloads(payloads, bound);
    if !FollowAgrees(followRequired, payloads, bound) {
      return Err(FollowError(followRequired, bound));
    }
    if constraints != map[] {
      var satisfied := FriendMentionsSatisfied(key, payloads, bound, Some(source), raw);
      if !satisfied {
        return Err("action_plan_friend_mention_count_mismatch");
      }
    }
    return Ok(());
  }

  /** The reviewed texts carry the tags and the mentions the bound plan asks for. */
  method ComparePayloads(payloads: Payloads, bound: Requirements) returns (result: Result<(), string>)
    ensures result.Ok? <==> forall action ::
      && PayloadTags(payloads, action) == bound.Of(action).topicTags
      && PayloadMentions(payloads, action) == Some(bound.Of(action).mentions)
  {
    hide PayloadTags, PayloadMentions;
    for i := 0 to 2
      invariant forall j | 0 <= j < i :: PayloadTags(payloads, TEXT_ACTIONS[j]) == bound.Of(TEXT_ACTIONS[j]).topicTags
      invariant forall j | 0 <= j < i ::
        PayloadMentions(payloads, TEXT_ACTIONS[j]) == Some(bound.Of(TEXT_ACTIONS[j]).mentions)
    {
      var action := TEXT_ACTIONS[i];
      if PayloadTags(payloads, action) != bound.Of(action).topicTags {
        return Err("action_plan_required_topic_mismatch");
      }
      if PayloadMentions(payloads, action) != Some(bound.Of(action).mentions) {
        return Err("action_plan_required_mention_mismatch");
      }
    }
    assert TEXT_ACTIONS[0] == Commented && TEXT_ACTIONS[1] == Reposted;
    return Ok(());
  }

  method CompareWithSource(key: Identity, source: Requirements, bound: Requirements, constraints: Constraints)
      returns (same: bool)
    ensures same == ComparisonPasses(key, source, bound, constraints)
  {
    CoversByKeys(key, bound.followTargets, source.followTargets);
    if !(KeySet(Keys(key, source.followTargets)) <= KeySet(Keys(key, bound.followTargets))) {
      return false;
    }
    for i := 0 to 2
      invariant i > 0 ==> SameAsSource(key, source.commented, bound.commented, Commented in constraints)
      invariant i > 1 ==> SameAsSource(key, source.reposted, bound.reposted, Reposted in constraints)
    {
      var action := TEXT_ACTIONS[i];
      assert action == if i == 0 then Commented else Reposted;
      var asked, given := source.Of(action), bound.Of(action);
      if asked.topicTags != given.topicTags {
        return false;
      }
      if action in constraints {
        NoDuplicatesIsDistinct(Keys(key, given.mentions));
        CoversByKeys(key, given.mentions, asked.mentions);
        if !NoDuplicates(Keys(key, given.mentions)) ||
           !(KeySet(Keys(key, asked.mentions)) <= KeySet(Keys(key, given.mentions))) {
          return false;
        }
      } else if asked.mentions != given.mentions {
        return false;
      }
    }
    return true;
  }

  lemma FollowBoundKeepsContents(isHandle: string -> bool, followRequired: bool, payloads: Payloads,
                                 source: Requirements)
    ensures var followed := FollowBound(isHandle, followRequired, payloads, source);
      followed.commented == source.commented && followed.reposted == source.reposted
  {
  }

  lemma FollowTargetsAreKept(key: Identity, isHandle: string -> bool, followRequired: bool, payloads: Payloads,
                             source: Requirements, i: nat)
    requires i < |source.followTargets|
    ensures key(source.followTargets[i]) in
      KeySet(Keys(key, FollowBound(isHandle, followRequired, payloads, source).followTargets))
  {
    assert Keys(key, source.followTargets)[i] == key(source.followTargets[i]);
  }

  lemma ComparesIffActionsDo(key: Identity, isHandle: string -> bool, followRequired: bool, payloads: Payloads,
                             source: Requirements, constraints: Constraints)
    ensures var bound := BoundFrom(key, isHandle, followRequired, payloads, source, constraints);
      var followed := FollowBound(isHandle, followRequired, payloads, source);
      ComparisonPasses(key, source, bound, constraints) <==>
        forall action | action in constraints ::
          Binds(key, payloads, followed, constraints, action) || Distinct(Keys(key, source.Of(action).mentions))
  {
    hide Binds, SameAsSource, Fits, Distinct, ContentBound, FollowBound, KeySet, Keys;
    var followed := FollowBound(isHandle, followRequired, payloads, source);
    forall i | 0 <= i < |source.followTargets|
      ensures key(source.followTargets[i]) in KeySet(Keys(key, followed.followTargets))
    {
      FollowTargetsAreKept(key, isHandle, followRequired, payloads, source, i);
    }
    FollowBoundKeepsContents(isHandle, followRequired, payloads, source);
    ActionComparesIff(key, payloads, source, followed, constraints, Commented);
    ActionComparesIff(key, payloads, source, followed, constraints, Reposted);
  }

  /**
   A bound plan passes the comparison exactly when every constrained action was bound or names its
   source's people only once; so it passes whenever the friend mentions are satisfied.
   */
  lemma BindingPassesComparisonIff(key: Identity, isHandle: string -> bool, followRequired: bool, payloads: Payloads,
                                   source: Requirements, raw: RawConstraints)
    requires RawValid(raw)
    ensures var constraints := ConstraintsOf(raw);
      var bound := BoundFrom(key, isHandle, followRequired, payloads, source, constraints);
      var followed := FollowBound(isHandle, followRequired, payloads, source);
      && (ComparisonPasses(key, source, bound, constraints) <==>
          forall action | action in constraints ::
            Binds(key, payloads, followed, constraints, action) || Distinct(Keys(key, source.Of(action).mentions)))
      && (Satisfied(key, payloads, bound, Some(source), raw) ==> ComparisonPasses(key, source, bound, constraints))
  {
    hide Binds, Distinct, Satisfied, ConstraintsOf, ComparisonPasses, BoundFrom, FollowBound, RawValid;
    var constraints := ConstraintsOf(raw);
    ComparesIffActionsDo(key, isHandle, followRequired, payloads, source, constraints);
    if Satisfied(key, payloads, BoundFrom(key, isHandle, followRequired, payloads, source, constraints),
      Some(source), raw) {
      SatisfiedMeansBound(key, isHandle, followRequired, payloads, source, raw);
    }
  }

  lemma ActionComparesIff(key: Identity, payloads: Payloads, source: Requirements, followed: Requirements,
                          constraints: Constraints, action: TextAction)
    requires followed.commented == source.commented && followed.reposted == source.reposted
    ensures SameAsSource(key, source.Of(action), ContentBound(key, payloads, followed, constraints, action),
      action in constraints)
      <==> (action in constraints ==>
            Binds(key, payloads, followed, constraints, action) || Distinct(Keys(key, source.Of(action).mentions)))
  {
    hide FriendHandles, CountSatisfied;
    CoversByKeys(key, source.Of(action).mentions, source.Of(action).mentions);
  }

  lemma SatisfiedMeansBound(key: Identity, isHandle: string -> bool, followRequired: bool, payloads: Payloads,
                            source: Requirements, raw: RawConstraints)
    requires RawValid(raw)
    requires Satisfied(key, payloads, BoundFrom(key, isHandle, followRequired, payloads, source, ConstraintsOf(raw)),
      Some(source), raw)
    ensures forall action | action in ConstraintsOf(raw) ::
      Binds(key, payloads, FollowBound(isHandle, followRequired, payloads, source), ConstraintsOf(raw), action)
  {
    hide Fits, RawValid, ConstraintsOf;
    SatisfiedAfterBindingIff(key, isHandle, followRequired, payloads, source, raw);
  }

  /**
   Such a plan: the source asks to mention one person twice and one friend, and the payload repeats the
   two mentions, so nothing is bound and the comparison with the plan's own source fails.
   */
  lemma RepeatedPersonFailsComparison(key: Identity, isHandle: string -> bool, handle: string)
    ensures var twice := [handle, handle];
      var raw := RawObject(map["commented" := Entry("minimum", Some(1))]);
      var source := Requirements([], Content([], twice), Content([], []));
      var payloads := Payloads(None, map[Commented := Payload([], Some(twice))]);
      && RawValid(raw)
      && !ComparisonPasses(key, source, BoundFrom(key, isHandle, false, payloads, source, ConstraintsOf(raw)),
                           ConstraintsOf(raw))
  {
    var twice := [handle, handle];
    var raw := RawObject(map["commented" := Entry("minimum", Some(1))]);
    var source := Requirements([], Content([], twice), Content([], []));
    var payloads := Payloads(None, map[Commented := Payload([], Some(twice))]);
    assert Keys(key, twice)[0] == Keys(key, twice)[1];
    assert ActionName(Commented) in raw.entries && Commented in ConstraintsOf(raw);
    assert source.Of(Commented).mentions == twice && payloads.texts[Commented].mentions == Some(twice);
    BindingPassesComparisonIff(key, isHandle, false, payloads, source, raw);
  }

  /** The one account the source names, or any handle of the right form if it names none, is reviewed for following. */
  predicate FollowReviewed(isHandle: string -> bool, followRequired: bool, payloads: Payloads, source: Requirements) {
    if !followRequired then source.followTargets == []
    else if source.followTargets == [] then payloads.followHandle.Some? && isHandle(payloads.followHandle.value)
    else payloads.followHandle.Some? && source.followTargets == [payloads.followHandle.value]
  }

  lemma FollowAgreesIff(isHandle: string -> bool, followRequired: bool, payloads: Payloads, source: Requirements)
    ensures FollowAgrees(followRequired, payloads, FollowBound(isHandle, followRequired, payloads, source))
      <==> FollowReviewed(isHandle, followRequired, payloads, source)
  {
  }

  /** The reviewed mentions of an action repeat the source's, or fit it where friends are asked for. */
  predicate MentionsReviewed(key: Identity, payloads: Payloads, source: Requirements, followed: set<string>,
                             constraints: Constraints, action: TextAction)
  {
    if action !in constraints then PayloadMentions(payloads, action) == Some(source.Of(action).mentions)
    else
      && action in payloads.texts && payloads.texts[action].mentions.Some?
      && Fits(key, payloads.texts[action].mentions.value, source.Of(action).mentions, followed, constraints[action])
  }

  lemma MentionsReviewedIff(key: Identity, isHandle: string -> bool, followRequired: bool, payloads: Payloads,
                            source: Requirements, constraints: Constraints, action: TextAction)
    ensures var followed := FollowBound(isHandle, followRequired, payloads, source);
      var mentions := ContentBound(key, payloads, followed, constraints, action).mentions;
      var follow := Followed(key, isHandle, followRequired, payloads, source);
      MentionsReviewed(key, payloads, source, follow, constraints, action) <==>
        PayloadMentions(payloads, action) == Some(mentions) &&
        (action in constraints ==> Binds(key, payloads, followed, constraints, action))
  {
    hide Fits;
  }

  /**
   A plan bound from its source passes the whole validation exactly when the reviewed payloads repeat
   the source's tags, repeat its mentions where no friends are asked for, fit it where they are, and
   follow whom they should.
   */
  lemma BoundPlanPassesIff(key: Identity, isHandle: string -> bool, followRequired: bool, payloads: Payloads,
                           source: Requirements, raw: RawConstraints)
    requires RawValid(raw)
    ensures var constraints := ConstraintsOf(raw);
      var followed := Followed(key, isHandle, followRequired, payloads, source);
      PlanPasses(key, followRequired, payloads,
        BoundFrom(key, isHandle, followRequired, payloads, source, constraints), source, raw)
      <==>
        && TagsRepeated(payloads, source)
        && MentionsReviewed(key, payloads, source, followed, constraints, Commented)
        && MentionsReviewed(key, payloads, source, followed, constraints, Reposted)
        && FollowReviewed(isHandle, followRequired, payloads, source)
  {
    var constraints := ConstraintsOf(raw);
    BindingPassesComparisonIff(key, isHandle, followRequired, payloads, source, raw);
    FollowAgreesIff(isHandle, followRequired, payloads, source);
    MentionsReviewedIff(key, isHandle, followRequired, payloads, source, constraints, Commented);
    MentionsReviewedIff(key, isHandle, followRequired, payloads, source, constraints, Reposted);
    SatisfiedIffAllBound(key, isHandle, followRequired, payloads, source, raw);
    hide Fits, ComparisonPasses, Satisfied, RawValid, ConstraintsOf, Distinct, Binds, MentionsReviewed,
      FollowReviewed, FollowAgrees;
  }

  lemma SatisfiedIffAllBound(key: Identity, isHandle: string -> bool, followRequired: bool, payloads: Payloads,
                             source: Requirements, raw: RawConstraints)
    requires RawValid(raw)
    ensures var constraints := ConstraintsOf(raw);
      var followed := FollowBound(isHandle, followRequired, payloads, source);
      constraints != map[] ==>
        (Satisfied(key, payloads, BoundFrom(key, isHandle, followRequired, payloads, source, constraints),
          Some(source), raw) <==>
          (Commented in constraints ==> Binds(key, payloads, followed, constraints, Commented)) &&
          (Reposted in constraints ==> Binds(key, payloads, followed, constraints, Reposted)))
  {
    if ConstraintsOf(raw) != map[] {
      SatisfiedAfterBindingIff(key, isHandle, followRequired, payloads, source, raw);
    }
    hide Fits, RawValid, ConstraintsOf, Satisfied;
  }
}
