/**
 The device action engine: one attempt at a like, follow, favorite or comment through exact
 screen markers. Every call to the device or the state file is numbered and answered by an
 arbitrary world, so any sequence of screens and failures can occur.
 */
module DeviceEngine {
  import opened Results
  import opened RateLimiter

  // ----- Screens and calibration -----

  datatype Bounds = Bounds(left: int, top: int, right: int, bottom: int)

  datatype UiNode = UiNode(text: string, resourceId: string, contentDesc: string, bounds: Option<Bounds>,
                           enabled: bool, clickable: bool)

  type Screen = seq<UiNode>

  datatype Selector = Selector(text: Option<string>, resourceId: Option<string>, contentDesc: Option<string>)

  datatype Point = Point(x: int, y: int)

  datatype Action = Follow | Like | Comment | Favorite

  datatype Request = Request(action: Action, comment: Option<string>, targetHash: Option<string>,
                             followHandle: Option<string>)

  datatype ActionCalibration = ActionCalibration(trigger: Selector, done: seq<Selector>,
                                                 typed: Option<Selector>, submit: Option<Selector>)

  datatype TargetCalibration = TargetCalibration(markers: seq<Selector>, authorHandle: string,
                                                 followMarkers: seq<Selector>)

  datatype Manifest = Manifest(package: string, riskTexts: seq<string>, actions: Action -> ActionCalibration,
                               targets: map<string, TargetCalibration>)

  datatype Failure = AdbError | UiDocumentError | ManifestError | RateLimitStateError | OsError | ValueError

  const COMMENT_PLACEHOLDER := "$comment"

  predicate FieldMatches(wanted: Option<string>, value: string) {
    wanted == None || wanted == Some(value)
  }

  predicate Matches(node: UiNode, selector: Selector) {
    && FieldMatches(selector.text, node.text)
    && FieldMatches(selector.resourceId, node.resourceId)
    && FieldMatches(selector.contentDesc, node.contentDesc)
  }

  function Matching(screen: Screen, selector: Selector): Screen {
    if screen == [] then []
    else (if Matches(screen[0], selector) then [screen[0]] else []) + Matching(screen[1..], selector)
  }

  function Unique(screen: Screen, selector: Selector): Result<UiNode, Failure> {
    var matches := Matching(screen, selector);
    if |matches| == 1 then Ok(matches[0]) else Err(UiDocumentError)
  }

  predicate HasAny(screen: Screen, selectors: seq<Selector>) {
    exists i | 0 <= i < |selectors| :: Matching(screen, selectors[i]) != []
  }

  function TapPoint(node: UiNode): Result<Point, Failure> {
    if !node.enabled || !node.clickable || node.bounds.None? then Err(UiDocumentError)
    else
      var b := node.bounds.value;
      if b.right <= b.left || b.bottom <= b.top then Err(UiDocumentError)
      else Ok(Point((b.left + b.right) / 2, (b.top + b.bottom) / 2))
  }

  /** The node is the only one on the screen that matches. */
  predicate OnlyMatch(screen: Screen, selector: Selector, k: nat) {
    && k < |screen| && Matches(screen[k], selector)
    && forall j | 0 <= j < |screen| && j != k :: !Matches(screen[j], selector)
  }

  predicate InTheMiddle(p: Point, b: Bounds) {
    && b.left <= p.x < b.right && 2 * p.x <= b.left + b.right <= 2 * p.x + 1
    && b.top <= p.y < b.bottom && 2 * p.y <= b.top + b.bottom <= 2 * p.y + 1
  }

  /** The middle is off every edge exactly when the node is at least two pixels wide and high. */
  lemma MiddleIsStrictlyInsideIff(p: Point, b: Bounds)
    requires InTheMiddle(p, b)
    ensures b.left < p.x < b.right && b.top < p.y < b.bottom <==> b.right - b.left >= 2 && b.bottom - b.top >= 2
  {
  }

  /** The point lies in the middle of the one node that matches, and that node is enabled and clickable. */
  predicate Hits(screen: Screen, selector: Selector, p: Point) {
    exists k: nat | k < |screen| :: OnlyMatch(screen, selector, k) &&
      screen[k].enabled && screen[k].clickable && screen[k].bounds.Some? && InTheMiddle(p, screen[k].bounds.value)
  }

  ghost predicate Hittable(screen: Screen, selector: Selector) {
    exists p :: Hits(screen, selector, p)
  }

  lemma {:induction false} MatchingIsFilter(screen: Screen, selector: Selector)
    ensures Matching(screen, selector) == [] <==> forall j | 0 <= j < |screen| :: !Matches(screen[j], selector)
    ensures |Matching(screen, selector)| == 1 ==>
      exists k: nat | k < |screen| :: OnlyMatch(screen, selector, k) && screen[k] == Matching(screen, selector)[0]
    ensures forall k: nat | k < |screen| && OnlyMatch(screen, selector, k) ::
      Matching(screen, selector) == [screen[k]]
  {
    hide Matches;
    if screen != [] {
      var head, tail := screen[0], screen[1..];
      MatchingIsFilter(tail, selector);
      assert forall j | 0 < j < |screen| :: screen[j] == tail[j - 1];
      if Matches(head, selector) {
        if |Matching(screen, selector)| == 1 {
          assert OnlyMatch(screen, selector, 0);
        }
        forall k: nat | OnlyMatch(screen, selector, k)
          ensures Matching(screen, selector) == [screen[k]]
        {
          assert k == 0;
          assert forall j | 0 <= j < |tail| :: tail[j] == screen[j + 1];
        }
      } else {
        if k: nat :| OnlyMatch(tail, selector, k) && tail[k] == Matching(screen, selector)[0] {
          assert OnlyMatch(screen, selector, k + 1);
        }
        forall k: nat | OnlyMatch(screen, selector, k)
          ensures Matching(screen, selector) == [screen[k]]
        {
          assert k > 0;
          assert OnlyMatch(tail, selector, k - 1);
        }
      }
    }
  }

  /** A point is found exactly when there is one to hit, and it hits. */
  lemma FoundPointHits(screen: Screen, selector: Selector)
    ensures Tappable(screen, selector) ==> Hits(screen, selector, TapPoint(Unique(screen, selector).value).value)
    ensures Tappable(screen, selector) <==> Hittable(screen, selector)
  {
    hide OnlyMatch, Matching;
    MatchingIsFilter(screen, selector);
    if p :| Hits(screen, selector, p) {
      var k: nat :| k < |screen| && OnlyMatch(screen, selector, k) && screen[k].enabled && screen[k].clickable &&
        screen[k].bounds.Some? && InTheMiddle(p, screen[k].bounds.value);
      assert Matching(screen, selector) == [screen[k]];
      assert TapPoint(screen[k]).Ok?;
    }
    if Tappable(screen, selector) {
      var k: nat :| k < |screen| && OnlyMatch(screen, selector, k) && screen[k] == Matching(screen, selector)[0];
      PointIsInTheMiddle(screen[k]);
      assert Hits(screen, selector, TapPoint(screen[k]).value);
    }
  }

  lemma PointIsInTheMiddle(node: UiNode)
    requires TapPoint(node).Ok?
    ensures node.enabled && node.clickable && node.bounds.Some?
    ensures InTheMiddle(TapPoint(node).value, node.bounds.value)
  {
  }

  predicate Contains(value: string, part: string) {
    exists i | 0 <= i <= |value| :: part <= value[i..]
  }

  predicate ShowsRisk(screen: Screen, risk: string) {
    exists i | 0 <= i < |screen| ::
      (screen[i].text != "" && Contains(screen[i].text, risk)) ||
      (screen[i].contentDesc != "" && Contains(screen[i].contentDesc, risk))
  }

  predicate RiskFree(manifest: Manifest, screen: Screen) {
    forall i | 0 <= i < |manifest.riskTexts| :: !ShowsRisk(screen, manifest.riskTexts[i])
  }

  function ResolveField(field: Option<string>, comment: Option<string>): Result<Option<string>, Failure> {
    if field != Some(COMMENT_PLACEHOLDER) then Ok(field)
    else if comment == None || comment == Some("") then Err(ManifestError)
    else Ok(comment)
  }

  function Resolve(selector: Selector, comment: Option<string>): Result<Selector, Failure> {
    var text :- ResolveField(selector.text, comment);
    var resourceId :- ResolveField(selector.resourceId, comment);
    var contentDesc :- ResolveField(selector.contentDesc, comment);
    Ok(Selector(text, resourceId, contentDesc))
  }

  function ResolveAll(selectors: seq<Selector>, comment: Option<string>): Result<seq<Selector>, Failure> {
    if selectors == [] then Ok([]) else
      var first :- Resolve(selectors[0], comment);
      var rest :- ResolveAll(selectors[1..], comment);
      Ok([first] + rest)
  }

  predicate MarkersVerified(screen: Screen, markers: seq<Selector>) {
    markers != [] && forall i | 0 <= i < |markers| :: |Matching(screen, markers[i])| == 1
  }

  /** Verdicts on the target and on the account to follow; None where the request names none. */
  datatype Verification = Verification(target: Option<bool>, follow: Option<bool>, known: bool)

  function TargetVerification(manifest: Manifest, screen: Screen, targetHash: Option<string>,
                              followHandle: Option<string>): Verification
  {
    if targetHash.None? then Verification(None, None, false)
    else if targetHash.value !in manifest.targets then
      Verification(Some(false), if followHandle.Some? then Some(false) else None, false)
    else
      var target := manifest.targets[targetHash.value];
      Verification(
        Some(MarkersVerified(screen, target.markers)),
        if followHandle.None? then None
        else Some(followHandle.value == target.authorHandle && MarkersVerified(screen, target.followMarkers)),
        true)
  }

  /** The screen shows the target the request was bound to, if any, and the author to follow, if any. */
  predicate ShowsTarget(manifest: Manifest, request: Request, screen: Screen) {
    request.targetHash.Some? ==>
      && request.targetHash.value in manifest.targets
      && MarkersVerified(screen, manifest.targets[request.targetHash.value].markers)
      && (request.followHandle.Some? ==>
          && request.followHandle.value == manifest.targets[request.targetHash.value].authorHandle
          && MarkersVerified(screen, manifest.targets[request.targetHash.value].followMarkers))
  }

  lemma TargetShown(manifest: Manifest, request: Request, screen: Screen)
    ensures var verified := TargetVerification(manifest, screen, request.targetHash, request.followHandle);
      ShowsTarget(manifest, request, screen) <==>
        (request.targetHash.Some? ==> verified.known) && verified.target != Some(false) &&
          verified.follow != Some(false)
    ensures request.targetHash.None? ==> ShowsTarget(manifest, request, screen)
  {
  }

  lemma UnknownTargetIsRefused(manifest: Manifest, request: Request, screen: Screen)
    ensures var verified := TargetVerification(manifest, screen, request.targetHash, request.followHandle);
      && (request.targetHash.Some? && !verified.known ==> verified.target == Some(false))
      && (request.followHandle.None? ==> verified.follow.None?)
  {
  }

  // ----- What one screen shows -----

  /** Free of risk, and of the right target. */
  predicate Fit(manifest: Manifest, request: Request, screen: Screen) {
    RiskFree(manifest, screen) && ShowsTarget(manifest, request, screen)
  }

  /** A fit screen shows, or does not show, the action as already done. */
  predicate ShownOn(manifest: Manifest, request: Request, screen: Screen, done: bool) {
    && Fit(manifest, request, screen)
    && var selectors := ResolveAll(manifest.actions(request.action).done, request.comment);
       selectors.Ok? && HasAny(screen, selectors.value) == done
  }

  /** The one node to tap is on the screen and can be tapped. */
  predicate Tappable(screen: Screen, selector: Selector) {
    var node := Unique(screen, selector);
    node.Ok? && TapPoint(node.value).Ok?
  }

  /** A fit screen shows the comment's exact text typed in, once. */
  predicate TypedOn(manifest: Manifest, request: Request, screen: Screen) {
    && Fit(manifest, request.(followHandle := None), screen)
    && var typed := manifest.actions(request.action).typed;
       typed.Some? && Resolve(typed.value, request.comment).Ok?
       && |Matching(screen, Resolve(typed.value, request.comment).value)| == 1
  }

  /** The comment was read back, and its submit button can be tapped. */
  predicate ReadBackOn(manifest: Manifest, request: Request, screen: Screen) {
    && TypedOn(manifest, request, screen)
    && manifest.actions(request.action).submit.Some?
    && Tappable(screen, manifest.actions(request.action).submit.value)
  }

  predicate Effective(manifest: Manifest, request: Request, done: seq<Selector>, screen: Screen) {
    var verified := TargetVerification(manifest, screen, request.targetHash, request.followHandle);
    && RiskFree(manifest, screen) && verified.target != Some(false) && verified.follow != Some(false)
    && HasAny(screen, done)
  }

  lemma EffectiveIsShown(manifest: Manifest, request: Request, done: seq<Selector>, screen: Screen)
    requires ResolveAll(manifest.actions(request.action).done, request.comment) == Ok(done)
    ensures ShownOn(manifest, request, screen, true) <==> Effective(manifest, request, done, screen)
  {
    TargetShown(manifest, request, screen);
    UnknownTargetIsRefused(manifest, request, screen);
  }

  /** Where the read-back selector asks for the comment itself, one node shows exactly the comment to be sent. */
  lemma TypedShowsTheComment(manifest: Manifest, request: Request, screen: Screen)
    requires TypedOn(manifest, request, screen)
    requires manifest.actions(request.action).typed.value.text == Some("$comment")
    ensures request.comment.Some? && request.comment.value != ""
    ensures exists k: nat | k < |screen| :: screen[k].text == request.comment.value
  {
    hide RiskFree, ShowsTarget;
    var selector := Resolve(manifest.actions(request.action).typed.value, request.comment).value;
    assert selector.text == request.comment;
    MatchingIsFilter(screen, selector);
    var k: nat :| k < |screen| && OnlyMatch(screen, selector, k);
    assert screen[k].text == request.comment.value;
  }

  // ----- The world -----

  datatype LockFailure = HeldElsewhere | Unavailable

  /** The answer to every numbered call. */
  datatype World = World(
    foreground: nat -> Result<string, Failure>,
    dump: nat -> Result<Screen, Failure>,
    tap: nat -> Option<Failure>,
    typing: nat -> Option<Failure>,
    stateUnreadable: nat -> bool,
    saveFails: nat -> bool,
    lock: nat -> Option<LockFailure>,
    late: nat -> bool,
    clock: nat -> real)

  function ScreenAt(world: World, manifest: Manifest, n: nat): Result<Screen, Failure> {
    var package :- world.foreground(n);
    if package != manifest.package then Err(UiDocumentError) else world.dump(n)
  }

  /** The screen read at call n shows, or does not show, the action as already done. */
  predicate ShownAt(world: World, manifest: Manifest, request: Request, n: nat, done: bool) {
    var screen := ScreenAt(world, manifest, n);
    screen.Ok? && ShownOn(manifest, request, screen.value, done)
  }

  predicate TypedAt(world: World, manifest: Manifest, request: Request, n: nat) {
    var screen := ScreenAt(world, manifest, n);
    screen.Ok? && TypedOn(manifest, request, screen.value)
  }

  predicate TappableAt(world: World, manifest: Manifest, n: nat, selector: Selector) {
    var screen := ScreenAt(world, manifest, n);
    screen.Ok? && Tappable(screen.value, selector)
  }

  predicate ReadBackAt(world: World, manifest: Manifest, request: Request, n: nat) {
    var screen := ScreenAt(world, manifest, n);
    screen.Ok? && ReadBackOn(manifest, request, screen.value)
  }

  /** The screen read at call n shows a risk text. */
  predicate RiskAt(world: World, manifest: Manifest, n: nat) {
    var screen := ScreenAt(world, manifest, n);
    screen.Ok? && !RiskFree(manifest, screen.value)
  }

  /** The call that taps to mutate, when the first screen is read by call first. */
  function TapCall(request: Request, first: nat): nat {
    if request.action == Comment then first + 4 else first + 1
  }

  /** Typing the comment works out: its field is tapped, the text typed in time and read back. */
  predicate CommentEntered(world: World, manifest: Manifest, request: Request, first: nat) {
    && world.tap(first + 1).None? && world.typing(first + 2).None?
    && ReadBackAt(world, manifest, request, first + 3) && !world.late(first + 4)
  }

  /** From the first screen on, everything that leads up to the mutating tap. */
  predicate Approached(world: World, manifest: Manifest, request: Request, first: nat) {
    && ShownAt(world, manifest, request, first, false)
    && TappableAt(world, manifest, first, manifest.actions(request.action).trigger)
    && !world.late(first + 1)
    && (request.action == Comment ==> CommentEntered(world, manifest, request, first))
  }

  /** The mutating tap is made and returns. */
  predicate Mutates(world: World, manifest: Manifest, request: Request, first: nat) {
    Approached(world, manifest, request, first) && world.tap(TapCall(request, first)).None?
  }

  /** The limiter can be read and allows the action at call n. */
  predicate AllowedAt(world: World, policy: Policy, file: StateFile, n: nat) {
    !world.stateUnreadable(n) && !file.Corrupt? && DecideFile(policy, file, world.clock(n)) == Allowed
  }

  /** How long the limiter asks a denied request to wait. */
  function AdvisedWait(world: World, policy: Policy, file: StateFile, n: nat): real {
    if world.stateUnreadable(n) || file.Corrupt? then 0.0
    else
      match DecideFile(policy, file, world.clock(n))
      case Allowed => 0.0
      case Denied(_, wait) => Later(0.0, wait)
  }

  // ----- What a mutation takes -----

  /** The screen is of the app, and no risk text stands anywhere on it. */
  predicate Harmless(world: World, manifest: Manifest, n: nat) {
    && world.foreground(n) == Ok(manifest.package) && world.dump(n).Ok?
    && forall r, k | 0 <= r < |manifest.riskTexts| && 0 <= k < |world.dump(n).value| ::
         var node := world.dump(n).value[k];
         && (node.text != "" ==> !Contains(node.text, manifest.riskTexts[r]))
         && (node.contentDesc != "" ==> !Contains(node.contentDesc, manifest.riskTexts[r]))
  }

  /** There are markers, and each is on the screen once. */
  predicate EachOnce(screen: Screen, markers: seq<Selector>) {
    markers != [] && forall m | m in markers :: exists k: nat | k < |screen| :: OnlyMatch(screen, m, k)
  }

  /** The screen is the bound target's, and the followed author's where the author counts. */
  predicate OfTarget(manifest: Manifest, request: Request, screen: Screen, author: bool) {
    request.targetHash.Some? ==>
      && request.targetHash.value in manifest.targets
      && EachOnce(screen, manifest.targets[request.targetHash.value].markers)
      && (author && request.followHandle.Some? ==>
            && request.followHandle == Some(manifest.targets[request.targetHash.value].authorHandle)
            && EachOnce(screen, manifest.targets[request.targetHash.value].followMarkers))
  }

  predicate AllResolve(done: seq<Selector>, comment: Option<string>) {
    forall d | 0 <= d < |done| :: Resolve(done[d], comment).Ok?
  }

  /** Some node matches one of the selectors that show the action done. */
  predicate SomeDone(screen: Screen, done: seq<Selector>, comment: Option<string>)
    requires AllResolve(done, comment)
  {
    exists d, k | 0 <= d < |done| && 0 <= k < |screen| :: Matches(screen[k], Resolve(done[d], comment).value)
  }

  lemma {:induction false} OnceIsOneMatch(screen: Screen, selector: Selector)
    ensures |Matching(screen, selector)| == 1 <==> exists k: nat | k < |screen| :: OnlyMatch(screen, selector, k)
  {
    hide OnlyMatch, Matching;
    MatchingIsFilter(screen, selector);
  }

  lemma MarkersVerifiedIff(screen: Screen, markers: seq<Selector>)
    ensures MarkersVerified(screen, markers) <==> EachOnce(screen, markers)
  {
    hide Matching, OnlyMatch;
    forall i | 0 <= i < |markers|
      ensures |Matching(screen, markers[i])| == 1 <==> exists k: nat | k < |screen| :: OnlyMatch(screen, markers[i], k)
    {
      OnceIsOneMatch(screen, markers[i]);
    }
    if EachOnce(screen, markers) {
      forall i | 0 <= i < |markers|
        ensures |Matching(screen, markers[i])| == 1
      {
        assert markers[i] in markers;
      }
    }
  }

  lemma OfTargetIff(manifest: Manifest, request: Request, screen: Screen)
    ensures ShowsTarget(manifest, request, screen) <==> OfTarget(manifest, request, screen, true)
    ensures ShowsTarget(manifest, request.(followHandle := None), screen) <==>
      OfTarget(manifest, request, screen, false)
  {
    hide MarkersVerified, EachOnce;
    if request.targetHash.Some? && request.targetHash.value in manifest.targets {
      MarkersVerifiedIff(screen, manifest.targets[request.targetHash.value].markers);
      MarkersVerifiedIff(screen, manifest.targets[request.targetHash.value].followMarkers);
    }
  }

  lemma HarmlessIff(world: World, manifest: Manifest, n: nat)
    ensures Harmless(world, manifest, n) <==>
      ScreenAt(world, manifest, n).Ok? && RiskFree(manifest, ScreenAt(world, manifest, n).value)
    ensures ScreenAt(world, manifest, n).Ok? ==> ScreenAt(world, manifest, n) == world.dump(n)
  {
    hide Contains;
    if ScreenAt(world, manifest, n).Ok? {
      var screen := world.dump(n).value;
      if RiskFree(manifest, screen) {
        forall r, k | 0 <= r < |manifest.riskTexts| && 0 <= k < |screen|
          ensures screen[k].text != "" ==> !Contains(screen[k].text, manifest.riskTexts[r])
          ensures screen[k].contentDesc != "" ==> !Contains(screen[k].contentDesc, manifest.riskTexts[r])
        {
          assert !ShowsRisk(screen, manifest.riskTexts[r]);
        }
      }
    }
  }

  lemma {:induction false} ResolvedAll(selectors: seq<Selector>, comment: Option<string>)
    ensures ResolveAll(selectors, comment).Ok? <==> AllResolve(selectors, comment)
    ensures ResolveAll(selectors, comment).Ok? ==>
      && |ResolveAll(selectors, comment).value| == |selectors|
      && forall i | 0 <= i < |selectors| ::
           Resolve(selectors[i], comment) == Ok(ResolveAll(selectors, comment).value[i])
  {
    hide Resolve;
    if selectors != [] {
      ResolvedAll(selectors[1..], comment);
      assert forall i | 0 < i < |selectors| :: selectors[i] == selectors[1..][i - 1];
    }
  }

  lemma DoneIff(screen: Screen, done: seq<Selector>, comment: Option<string>)
    requires ResolveAll(done, comment).Ok?
    ensures AllResolve(done, comment)
    ensures HasAny(screen, ResolveAll(done, comment).value) <==> SomeDone(screen, done, comment)
  {
    hide Resolve, Matching, Matches;
    ResolvedAll(done, comment);
    var resolved := ResolveAll(done, comment).value;
    forall d | 0 <= d < |done|
      ensures Matching(screen, resolved[d]) == [] <==>
        forall k | 0 <= k < |screen| :: !Matches(screen[k], Resolve(done[d], comment).value)
    {
      MatchingIsFilter(screen, resolved[d]);
    }
  }

  /** A screen shows the action done, or not, exactly when it is harmless, the target's, and has a done node or none. */
  lemma ShownIff(world: World, manifest: Manifest, request: Request, n: nat, done: bool)
    ensures ShownAt(world, manifest, request, n, done) <==>
      && Harmless(world, manifest, n) && OfTarget(manifest, request, world.dump(n).value, true)
      && AllResolve(manifest.actions(request.action).done, request.comment)
      && SomeDone(world.dump(n).value, manifest.actions(request.action).done, request.comment) == done
  {
    hide Harmless, OfTarget, RiskFree, ShowsTarget, SomeDone, AllResolve, HasAny, ScreenAt, ResolveAll;
    HarmlessIff(world, manifest, n);
    ResolvedAll(manifest.actions(request.action).done, request.comment);
    if ScreenAt(world, manifest, n).Ok? {
      OfTargetIff(manifest, request, world.dump(n).value);
      if AllResolve(manifest.actions(request.action).done, request.comment) {
        DoneIff(world.dump(n).value, manifest.actions(request.action).done, request.comment);
      }
    }
  }

  lemma TappableIff(world: World, manifest: Manifest, n: nat, selector: Selector)
    requires Harmless(world, manifest, n)
    ensures TappableAt(world, manifest, n, selector) <==> Hittable(world.dump(n).value, selector)
  {
    hide Harmless, Hittable, RiskFree, Tappable;
    HarmlessIff(world, manifest, n);
    FoundPointHits(world.dump(n).value, selector);
  }

  /** A harmless screen of the target shows what the read-back asks for once, and holds the submit button. */
  predicate ReadsBack(world: World, manifest: Manifest, request: Request, n: nat) {
    var calibration := manifest.actions(request.action);
    && Harmless(world, manifest, n) && OfTarget(manifest, request, world.dump(n).value, false)
    && calibration.typed.Some? && calibration.submit.Some?
    && Resolve(calibration.typed.value, request.comment).Ok?
    && var screen, typed := world.dump(n).value, Resolve(calibration.typed.value, request.comment).value;
       exists k: nat | k < |screen| :: OnlyMatch(screen, typed, k)
  }

  lemma ReadsBackIff(world: World, manifest: Manifest, request: Request, n: nat)
    ensures ReadBackAt(world, manifest, request, n) <==>
      && ReadsBack(world, manifest, request, n)
      && Hittable(world.dump(n).value, manifest.actions(request.action).submit.value)
  {
    hide Harmless, OfTarget, RiskFree, ShowsTarget, Hittable, OnlyMatch, Matching, Resolve, ScreenAt, Unique, TapPoint;
    hide Tappable;
    var calibration := manifest.actions(request.action);
    HarmlessIff(world, manifest, n);
    if ScreenAt(world, manifest, n).Ok? {
      var screen := world.dump(n).value;
      OfTargetIff(manifest, request, screen);
      if calibration.typed.Some? && Resolve(calibration.typed.value, request.comment).Ok? {
        OnceIsOneMatch(screen, Resolve(calibration.typed.value, request.comment).value);
      }
      if calibration.submit.Some? {
        FoundPointHits(screen, calibration.submit.value);
      }
    }
  }

  /**
   A mutating tap is made exactly when, in time before it, a harmless first screen of the target and its author does
   not show the action done and has the trigger to hit; for a comment also its field is tapped, the text typed and, in
   time again, read back with the button to hit; and the tap's own call works.
   */
  lemma MutatesIff(world: World, manifest: Manifest, request: Request, first: nat)
    ensures Mutates(world, manifest, request, first) <==>
      && ShownAt(world, manifest, request, first, false)
      && Hittable(world.dump(first).value, manifest.actions(request.action).trigger)
      && !world.late(first + 1) && world.tap(first + 1).None?
      && (request.action == Comment ==>
            && world.typing(first + 2).None?
            && ReadsBack(world, manifest, request, first + 3)
            && Hittable(world.dump(first + 3).value, manifest.actions(request.action).submit.value)
            && !world.late(first + 4) && world.tap(first + 4).None?)
  {
    hide ShownAt, Harmless, ReadsBack, ReadBackAt, TappableAt, Hittable;
    ShownIff(world, manifest, request, first, false);
    if ShownAt(world, manifest, request, first, false) {
      TappableIff(world, manifest, first, manifest.actions(request.action).trigger);
    }
    if request.action == Comment {
      ReadsBackIff(world, manifest, request, first + 3);
    }
  }

  // ----- Cooldowns -----

  /** The cooldown that the write at call n leaves: none if that write fails. */
  function Written(world: World, n: nat, blocked: bool): Option<(nat, bool)> {
    if world.saveFails(n) then None else Some((n, blocked))
  }

  /** A risk text appears while a comment is being typed. */
  predicate RiskWhileTyping(world: World, manifest: Manifest, request: Request, first: nat) {
    && request.action == Comment
    && ShownAt(world, manifest, request, first, false)
    && TappableAt(world, manifest, first, manifest.actions(request.action).trigger)
    && !world.late(first + 1)
    && world.tap(first + 1).None? && world.typing(first + 2).None?
    && RiskAt(world, manifest, first + 3)
  }

  /** The cooldown written before any mutation. */
  function ApproachCooldown(world: World, manifest: Manifest, request: Request, first: nat): Option<(nat, bool)> {
    if RiskAt(world, manifest, first) then Written(world, first + 1, true)
    else if RiskWhileTyping(world, manifest, request, first) then Written(world, first + 4, true)
    else None
  }

  /** The cooldown written on judging the effect of the mutation that call n records. */
  function ConfirmCooldown(world: World, manifest: Manifest, request: Request, n: nat): Option<(nat, bool)> {
    if world.saveFails(n) || ScreenAt(world, manifest, n + 1).Err? || ShownAt(world, manifest, request, n + 1, true)
    then None
    else Written(world, n + 2, RiskAt(world, manifest, n + 1))
  }

  /** Recording the mutation, reading the screen or writing that cooldown failed. */
  predicate ConfirmFails(world: World, manifest: Manifest, request: Request, n: nat) {
    || world.saveFails(n) || ScreenAt(world, manifest, n + 1).Err?
    || (!ShownAt(world, manifest, request, n + 1, true) && world.saveFails(n + 2))
  }

  /** The first call after all that. */
  function AfterConfirm(world: World, manifest: Manifest, request: Request, n: nat): nat {
    if world.saveFails(n) then n + 1
    else if ScreenAt(world, manifest, n + 1).Err? || ShownAt(world, manifest, request, n + 1, true) then n + 2
    else n + 3
  }

  /** The cooldown an attempt leaves, its first screen being read by call first. */
  function Cooldown(world: World, manifest: Manifest, request: Request, first: nat): Option<(nat, bool)> {
    if !Mutates(world, manifest, request, first) then ApproachCooldown(world, manifest, request, first)
    else
      var n := TapCall(request, first) + 1;
      if ConfirmFails(world, manifest, request, n) then Written(world, AfterConfirm(world, manifest, request, n), false)
      else ConfirmCooldown(world, manifest, request, n)
  }

  /** A blocked cooldown is left exactly when a risk text was read and writing it down worked. */
  lemma BlockedCooldownIffRisk(world: World, manifest: Manifest, request: Request, first: nat)
    ensures var cooldown := Cooldown(world, manifest, request, first);
      var n := TapCall(request, first) + 1;
      cooldown.Some? && cooldown.value.1 <==>
        || (RiskAt(world, manifest, first) && !world.saveFails(first + 1))
        || (RiskWhileTyping(world, manifest, request, first) && !world.saveFails(first + 4))
        || (Mutates(world, manifest, request, first) && !world.saveFails(n) && RiskAt(world, manifest, n + 1) &&
            !world.saveFails(n + 2))
  {
    hide RiskFree, ShowsTarget, ResolveAll, HasAny, Tappable, ScreenAt, Matching, Resolve;
  }

  /** After a mutation without success some cooldown is left unless the last write fails as well. */
  lemma UnconfirmedLeavesCooldown(world: World, manifest: Manifest, request: Request, first: nat)
    requires Mutates(world, manifest, request, first)
    ensures var n := TapCall(request, first) + 1;
      Cooldown(world, manifest, request, first).None? <==>
        if ConfirmFails(world, manifest, request, n) then world.saveFails(AfterConfirm(world, manifest, request, n))
        else ShownAt(world, manifest, request, n + 1, true)
  {
    hide Mutates, ShownAt, ScreenAt;
  }

  /** A refused request is told what the limiter advises, but never to wait less than no time. */
  lemma RefusalPassesTheAdviceOn(world: World, policy: Policy, file: StateFile, n: nat, reason: Reason, wait: real)
    requires !world.stateUnreadable(n) && !file.Corrupt?
    requires DecideFile(policy, file, world.clock(n)) == Denied(reason, wait)
    ensures AdvisedWait(world, policy, file, n) == if wait >= 0.0 then wait else 0.0
    ensures reason == CooldownActive ==> world.clock(n) + AdvisedWait(world, policy, file, n) == Deadline(file)
  {
    hide Recent, Earliest, Latest;
  }

  // ----- What reaches the device -----

  /** The point hits the selector's node on the screen read at call n. */
  predicate HitsAt(world: World, manifest: Manifest, n: nat, selector: Selector, p: Point) {
    var screen := ScreenAt(world, manifest, n);
    screen.Ok? && Hits(screen.value, selector, p)
  }

  /** Before any mutation at most the comment's field is tapped and its text typed, in this order. */
  predicate LeadsUp(world: World, manifest: Manifest, request: Request, first: nat, made: seq<Input>) {
    && (request.action != Comment ==> made == [])
    && |made| <= 2
    && (|made| > 0 ==>
          made[0].Tap? && !made[0].mutating &&
          HitsAt(world, manifest, first, manifest.actions(request.action).trigger, made[0].point))
    && (|made| > 1 ==> made[1] == Text(if request.comment.Some? then request.comment.value else ""))
  }

  function CommentText(request: Request): string {
    if request.comment.Some? then request.comment.value else ""
  }

  /** The inputs of typing a comment: the tap on its field, then the text, as far as the calls returned. */
  function CommentInputs(request: Request, field: Point, tapped: bool, typed: bool): seq<Input> {
    if !tapped then [] else [Tap(field, false)] + if typed then [Text(CommentText(request))] else []
  }

  lemma NothingLeadsUp(world: World, manifest: Manifest, request: Request, first: nat)
    ensures LeadsUp(world, manifest, request, first, [])
  {
  }

  lemma TypingLeadsUp(world: World, manifest: Manifest, request: Request, first: nat, field: Point, tapped: bool,
                      typed: bool)
    requires request.action == Comment
    requires HitsAt(world, manifest, first, manifest.actions(request.action).trigger, field)
    ensures LeadsUp(world, manifest, request, first, CommentInputs(request, field, tapped, typed))
  {
    hide HitsAt;
  }

  lemma LeadingUpMutatesNothing(world: World, manifest: Manifest, request: Request, first: nat, before: seq<Input>,
                                made: seq<Input>)
    requires LeadsUp(world, manifest, request, first, made)
    ensures Mutations(before + made) == Mutations(before)
  {
    hide HitsAt;
    if made == [] {
      assert before + made == before;
    } else if |made| == 1 {
      assert (before + made)[..|before|] == before;
    } else {
      assert made == [made[0], made[1]];
      assert (before + made)[..|before| + 1] == before + [made[0]];
      assert (before + [made[0]])[..|before|] == before;
    }
  }

  /** The mutating tap hits the submit button read back after typing, or the trigger on the first screen. */
  predicate MutatesRightly(world: World, manifest: Manifest, request: Request, log: Log, p: Point) {
    var calibration := manifest.actions(request.action);
    if request.action == Comment then
      && log.typed.Some? && calibration.submit.Some?
      && HitsAt(world, manifest, log.typed.value, calibration.submit.value, p)
    else log.before.Some? && HitsAt(world, manifest, log.before.value, calibration.trigger, p)
  }

  /** What an attempt made reach the device: nothing mutating but, as its last input, the mutating tap if made. */
  predicate WellPlaced(world: World, manifest: Manifest, request: Request, log: Log, made: seq<Input>) {
    if log.before.None? then made == []
    else if log.tapped.None? then LeadsUp(world, manifest, request, log.before.value, made)
    else
      && made != []
      && var last := made[|made| - 1];
         && last.Tap? && last.mutating && MutatesRightly(world, manifest, request, log, last.point)
         && |made| == (if request.action == Comment then 3 else 1)
         && LeadsUp(world, manifest, request, log.before.value, made[..|made| - 1])
  }

  ghost predicate HitsOn(world: World, manifest: Manifest, n: nat, selector: Selector, p: Point) {
    world.foreground(n) == Ok(manifest.package) && world.dump(n).Ok? && Hits(world.dump(n).value, selector, p)
  }

  /**
   A mutation other than a comment is one tap, in the middle of the trigger. A comment is a tap in the middle of its
   field, its own text, and the mutating tap in the middle of the submit button on the screen read after typing.
   */
  lemma InputsOfAMutation(world: World, manifest: Manifest, request: Request, log: Log, made: seq<Input>)
    requires WellPlaced(world, manifest, request, log, made) && log.before.Some? && log.tapped.Some?
    ensures request.action != Comment ==> exists p ::
      made == [Tap(p, true)] &&
      HitsOn(world, manifest, log.before.value, manifest.actions(request.action).trigger, p)
    ensures request.action == Comment ==>
      log.typed.Some? && manifest.actions(request.action).submit.Some? && exists field, button ::
        && made == [Tap(field, false), Text(if request.comment.Some? then request.comment.value else ""),
                    Tap(button, true)]
        && HitsOn(world, manifest, log.before.value, manifest.actions(request.action).trigger, field)
        && HitsOn(world, manifest, log.typed.value, manifest.actions(request.action).submit.value, button)
  {
    hide Hits;
    var last := made[|made| - 1].point;
    if request.action != Comment {
      assert made == [Tap(last, true)];
      assert HitsOn(world, manifest, log.before.value, manifest.actions(request.action).trigger, last);
    } else {
      var field := made[..2][0].point;
      assert made[0] == made[..2][0] && made[1] == made[..2][1];
      assert made == [made[0], made[1], made[2]];
      assert HitsOn(world, manifest, log.before.value, manifest.actions(request.action).trigger, field);
      assert HitsOn(world, manifest, log.typed.value, manifest.actions(request.action).submit.value, last);
    }
  }

  lemma WellPlacedSoFar(world: World, manifest: Manifest, request: Request, log: Log, made: seq<Input>)
    requires log.tapped.None?
    requires if log.before.None? then made == [] else LeadsUp(world, manifest, request, log.before.value, made)
    ensures WellPlaced(world, manifest, request, log, made)
  {
    hide LeadsUp;
  }

  lemma WellPlacedAtLast(world: World, manifest: Manifest, request: Request, approached: Log, log: Log,
                         made: seq<Input>, p: Point)
    requires log.tapped.Some? && log.before.Some? && LeadsUp(world, manifest, request, log.before.value, made)
    requires log.before == approached.before && log.typed == approached.typed
    requires MutatesRightly(world, manifest, request, approached, p)
    requires |made| == if request.action == Comment then 2 else 0
    ensures WellPlaced(world, manifest, request, log, made + [Tap(p, true)])
  {
    hide LeadsUp, HitsAt;
    assert (made + [Tap(p, true)])[..|made|] == made;
  }

  lemma SamePlaces(world: World, manifest: Manifest, request: Request, log: Log, log': Log, made: seq<Input>)
    requires WellPlaced(world, manifest, request, log, made)
    requires log'.before == log.before && log'.typed == log.typed && log'.tapped == log.tapped
    ensures WellPlaced(world, manifest, request, log', made)
  {
    hide LeadsUp;
  }

  // ----- Results -----

  datatype Status = Succeeded | AlreadyDone | Blocked | Unknown

  datatype ActionResult = ActionResult(status: Status, reason: string, outcomeKnown: bool, halt: bool,
                                       mutationAttempted: bool, beforeDone: Option<bool>, afterDone: Option<bool>,
                                       retryAfter: real)

  function BlockedResult(reason: string, beforeDone: Option<bool>): ActionResult {
    ActionResult(Blocked, reason, true, true, false, beforeDone, None, 0.0)
  }

  function UnconfirmedResult(status: Status, reason: string, beforeDone: Option<bool>,
      afterDone: Option<bool>): ActionResult
  {
    ActionResult(status, reason, false, true, true, beforeDone, afterDone, 0.0)
  }

  function AlreadyDoneResult(): ActionResult {
    ActionResult(AlreadyDone, "done_state_present_before_action", true, false, false, Some(true), Some(true), 0.0)
  }

  /** Stopped before any mutation. */
  predicate StoppedEarly(result: ActionResult) {
    result.status == Blocked && result.outcomeKnown && result.halt && !result.mutationAttempted
  }

  /** Stopped after a mutation whose effect was not seen. */
  predicate Unconfirmed(result: ActionResult) {
    (result.status == Blocked || result.status == Unknown) && !result.outcomeKnown && result.halt &&
      result.mutationAttempted
  }

  function ReasonCode(reason: Reason): string {
    match reason
    case CooldownActive => "cooldown_active"
    case HourlyRateLimit => "hourly_rate_limit"
    case MinimumInterval => "minimum_interval"
  }

  /** One stage of an attempt either ends it or hands over the point to tap next. */
  datatype Stage = Finished(result: ActionResult) | Ready(point: Point)

  /** What reached the device: a tap, or a text typed into the focused field. */
  datatype Input = Tap(point: Point, mutating: bool) | Text(text: string)

  predicate IsMutation(input: Input) {
    input.Tap? && input.mutating
  }

  function Mutations(inputs: seq<Input>): nat {
    if inputs == [] then 0 else
      Mutations(inputs[..|inputs| - 1]) + if IsMutation(inputs[|inputs| - 1]) then 1 else 0
  }

  /** The numbers of the calls of one attempt that mattered: what was read, tapped and recorded when. */
  datatype Log = Log(checked: Option<nat>, before: Option<nat>, typed: Option<nat>, tapped: Option<nat>,
                     recorded: Option<nat>, after: Option<nat>, cooled: Option<(nat, bool)>)

  const EMPTY_LOG := Log(None, None, None, None, None, None, None)

  /** The state file after what the log says was written. */
  function FileAfter(policy: Policy, world: World, file: StateFile, recorded: Option<nat>, cooled: Option<(nat,
      bool)>): StateFile
  {
    var updated := if recorded.Some? then AfterMutation(file, world.clock(recorded.value)) else file;
    if cooled.Some? then AfterCooldown(policy, updated, world.clock(cooled.value.0), cooled.value.1) else updated
  }

  /**
   What a result tells, whatever happened. The run goes on exactly after success or when nothing was
   left to do; the outcome is unknown exactly when the mutating tap returned and was not confirmed;
   success is exactly a recorded mutation whose next screen, free of risk and of the right target,
   shows it done.
   */
  predicate Classified(world: World, manifest: Manifest, request: Request, log: Log, result: ActionResult) {
    && (!result.halt <==> result.status == Succeeded || result.status == AlreadyDone)
    && (result.mutationAttempted <==> log.tapped.Some?)
    && (!result.outcomeKnown <==> log.tapped.Some? && result.status != Succeeded)
    && (result.status == Unknown ==> log.tapped.Some?)
    && (result.status == Succeeded <==>
        log.recorded.Some? && log.after.Some? && ShownAt(world, manifest, request, log.after.value, true))
    && (result.status == AlreadyDone <==>
        log.before.Some? && ShownAt(world, manifest, request, log.before.value, true))
  }

  lemma FinishedIsClassified(world: World, manifest: Manifest, request: Request, log: Log, result: ActionResult)
    requires log.tapped.None? && log.recorded.None? && log.before.Some?
    requires result == AlreadyDoneResult() || StoppedEarly(result)
    requires ShownAt(world, manifest, request, log.before.value, true) <==> result == AlreadyDoneResult()
    ensures Classified(world, manifest, request, log, result) && result.outcomeKnown
  {
    hide ShownAt;
  }

  lemma MutatedIsClassified(world: World, manifest: Manifest, request: Request, log: Log, result: ActionResult)
    requires log.tapped.Some? && log.before.Some? && (log.after.Some? ==> log.recorded.Some?)
    requires !ShownAt(world, manifest, request, log.before.value, true)
    requires result.status == Succeeded <==>
      log.after.Some? && ShownAt(world, manifest, request, log.after.value, true)
    requires if result.status == Succeeded then result.outcomeKnown && !result.halt && result.mutationAttempted
             else Unconfirmed(result)
    ensures Classified(world, manifest, request, log, result)
  {
    hide ShownAt;
  }

  lemma RefusalIsClassified(world: World, manifest: Manifest, request: Request, log: Log, result: ActionResult)
    requires StoppedEarly(result) && log == EMPTY_LOG.(checked := log.checked)
    ensures Classified(world, manifest, request, log, result) && result.outcomeKnown
  {
    hide ShownAt;
  }

  /** When the mutating tap was made, and what was checked first. */
  predicate TappedProperly(world: World, manifest: Manifest, policy: Policy, file: StateFile, request: Request,
      log: Log)
  {
    && (log.checked.None? ==> log == EMPTY_LOG)
    && (log.tapped.Some? ==>
        && log.checked.Some? && log.before.Some? && log.checked.value < log.before.value < log.tapped.value
        && !file.Corrupt? && DecideFile(policy, file, world.clock(log.checked.value)) == Allowed
        && ShownAt(world, manifest, request, log.before.value, false)
        && (request.action == Comment ==>
            log.typed.Some? && log.before.value < log.typed.value < log.tapped.value &&
            TypedAt(world, manifest, request, log.typed.value)))
    && (log.recorded.Some? ==> log.tapped.Some? && log.tapped.value < log.recorded.value)
    && (log.after.Some? ==> log.recorded.Some? && log.recorded.value < log.after.value)
    && (log.cooled.Some? ==> log.checked.Some? && log.checked.value < log.cooled.value.0)
    && (log.cooled.Some? && log.recorded.Some? ==> log.recorded.value < log.cooled.value.0)
  }

  /** Which calls of an attempt whose first screen is read by call first are made, and when. */
  predicate Determined(world: World, manifest: Manifest, request: Request, first: nat, log: Log) {
    && log.before == Some(first)
    && log.tapped == (if Mutates(world, manifest, request, first) then Some(TapCall(request, first)) else None)
    && log.recorded == (if log.tapped.Some? && !world.saveFails(TapCall(request, first) + 1)
                        then Some(TapCall(request, first) + 1) else None)
    && log.after == (if log.recorded.Some? then Some(TapCall(request, first) + 2) else None)
  }

  /** What a request started at call n does: nothing but a refusal unless the limiter allows it, else the attempt. */
  predicate Runs(world: World, manifest: Manifest, policy: Policy, file: StateFile, request: Request, n: nat, log: Log)
  {
    if AllowedAt(world, policy, file, n) then
      log.checked == Some(n) &&
      Determined(world, manifest, request, n + 1, log) && log.cooled == Cooldown(world, manifest, request, n + 1)
    else log == EMPTY_LOG.(checked := Some(n))
  }

  /** Everything said of one request: its log is determined by the world, and its result by the log. */
  predicate Executed(world: World, manifest: Manifest, policy: Policy, file: StateFile, request: Request, start: nat,
                     log: Log, result: ActionResult)
  {
    && Classified(world, manifest, request, log, result)
    && TappedProperly(world, manifest, policy, file, request, log)
    && (if world.lock(start).Some? then log == EMPTY_LOG
        else Runs(world, manifest, policy, file, request, start + 1, log))
  }

  /** A screen shows an action done or not done, never both, and neither beside a risk text. */
  lemma ScreenFacts(world: World, manifest: Manifest, request: Request, n: nat)
    ensures !(ShownAt(world, manifest, request, n, true) && ShownAt(world, manifest, request, n, false))
    ensures RiskAt(world, manifest, n) ==>
      !ShownAt(world, manifest, request, n, true) && !ShownAt(world, manifest, request, n, false)
  {
  }

  lemma ApproachMeans(world: World, manifest: Manifest, request: Request, first: nat)
    requires Approached(world, manifest, request, first)
    ensures ShownAt(world, manifest, request, first, false)
    ensures ResolveAll(manifest.actions(request.action).done, request.comment).Ok?
    ensures request.action == Comment ==> TypedAt(world, manifest, request, first + 3)
  {
  }

  lemma UnwrittenFile(policy: Policy, world: World, file: StateFile)
    ensures FileAfter(policy, world, file, None, None) == file
  {
  }

  class DeviceActionEngine {
    const world: World
    const manifest: Manifest
    const limiter: PersistentRateLimiter
    var calls: nat
    var inputs: seq<Input>
    ghost var log: Log
    ghost var startFile: StateFile

    constructor (world: World, manifest: Manifest, limiter: PersistentRateLimiter)
      ensures this.world == world && this.manifest == manifest && this.limiter == limiter
      ensures calls == 0 && inputs == []
    {
      this.world := world;
      this.manifest := manifest;
      this.limiter := limiter;
      this.calls := 0;
      this.inputs := [];
      this.log := EMPTY_LOG;
      this.startFile := limiter.file;
    }

    /** The file holds what the log says was written, and every logged call has been made. */
    ghost predicate Logged()
      reads this, limiter
    {
      && limiter.file == FileAfter(limiter.policy, world, startFile, log.recorded, log.cooled)
      && (log.checked.Some? ==> log.checked.value < calls)
      && (log.before.Some? ==> log.before.value < calls)
      && (log.typed.Some? ==> log.typed.value < calls)
      && (log.tapped.Some? ==> log.tapped.value < calls)
      && (log.recorded.Some? ==> log.recorded.value < calls)
      && (log.after.Some? ==> log.after.value < calls)
      && (log.cooled.Some? ==> log.cooled.value.0 < calls)
    }

    // ----- Single calls -----

    method ReadUi() returns (screen: Result<Screen, Failure>)
      modifies this`calls
      ensures calls == old(calls) + 1
      ensures screen == ScreenAt(world, manifest, old(calls))
    {
      var n := calls;
      calls := calls + 1;
      var package :- world.foreground(n);
      if package != manifest.package {
        return Err(UiDocumentError);
      }
      return world.dump(n);
    }

    method TapAt(point: Point, mutating: bool) returns (result: Result<(), Failure>)
      modifies this`calls, this`inputs
      ensures calls == old(calls) + 1
      ensures result.Ok? <==> world.tap(old(calls)).None?
      ensures result.Ok? ==> inputs == old(inputs) + [Tap(point, mutating)]
      ensures result.Err? ==> inputs == old(inputs)
    {
      var failure := world.tap(calls);
      calls := calls + 1;
      if failure.Some? {
        return Err(failure.value);
      }
      inputs := inputs + [Tap(point, mutating)];
      return Ok(());
    }

    method TypeText(text: string) returns (result: Result<(), Failure>)
      modifies this`calls, this`inputs
      ensures calls == old(calls) + 1
      ensures result.Ok? <==> world.typing(old(calls)).None?
      ensures inputs == old(inputs) + if result.Ok? then [Text(text)] else []
    {
      var failure := world.typing(calls);
      calls := calls + 1;
      if failure.Some? {
        return Err(failure.value);
      }
      inputs := inputs + [Text(text)];
      return Ok(());
    }

    method RecordCooldown(blocked: bool) returns (result: Result<(), Failure>)
      requires Logged() && log.cooled.None?
      modifies this`calls, this`log, limiter
      ensures calls == old(calls) + 1 && Logged()
      ensures result.Ok? <==> !world.saveFails(old(calls)) && !old(limiter.file).Corrupt?
      ensures log == old(log).(cooled := if result.Ok? then Some((old(calls), blocked)) else None)
      ensures limiter.file.Corrupt? == old(limiter.file).Corrupt?
    {
      hide Decide, Times, Deadline;
      var n := calls;
      calls := calls + 1;
      if world.saveFails(n) {
        return Err(OsError);
      }
      var written := limiter.RecordCooldown(world.clock(n), blocked);
      if written.Err? {
        return Err(RateLimitStateError);
      }
      log := log.(cooled := Some((n, blocked)));
      return Ok(());
    }

    method RecordMutation() returns (result: Result<(), Failure>)
      requires Logged() && log.cooled.None? && log.recorded.None?
      modifies this`calls, this`log, limiter
      ensures calls == old(calls) + 1 && Logged()
      ensures result.Ok? <==> !world.saveFails(old(calls)) && !old(limiter.file).Corrupt?
      ensures result.Ok? ==> log == old(log).(recorded := Some(old(calls)))
      ensures result.Err? ==> log == old(log)
      ensures limiter.file.Corrupt? == old(limiter.file).Corrupt?
    {
      var n := calls;
      calls := calls + 1;
      if world.saveFails(n) {
        return Err(OsError);
      }
      var written := limiter.RecordMutation(world.clock(n));
      if written.Err? {
        return Err(RateLimitStateError);
      }
      log := log.(recorded := Some(n));
      return Ok(());
    }

    // ----- The stages of an attempt -----

    /** Finds what to tap on a risk-free first screen, unless the attempt must end or is already done. */
    method Inspect(request: Request, screen: Screen, late: bool)
      returns (stage: Result<Stage, Failure>, beforeDone: Option<bool>)
      requires RiskFree(manifest, screen)
      ensures stage.Ok? && stage.value.Ready? <==>
        ShownOn(manifest, request, screen, false) && Tappable(screen, manifest.actions(request.action).trigger) && !late
      ensures stage.Ok? && stage.value.Ready? ==>
        beforeDone == Some(false) && Hits(screen, manifest.actions(request.action).trigger, stage.value.point)
      ensures stage.Ok? && stage.value.Finished? ==>
        stage.value.result == AlreadyDoneResult() || StoppedEarly(stage.value.result)
      ensures ShownOn(manifest, request, screen, true) <==> stage == Ok(Finished(AlreadyDoneResult()))
    {
      hide RiskFree, MarkersVerified, ShowsTarget, ResolveAll, HasAny, Unique, TapPoint, TargetVerification, Hits;
      beforeDone := None;
      var verified := TargetVerification(manifest, screen, request.targetHash, request.followHandle);
      TargetShown(manifest, request, screen);
      UnknownTargetIsRefused(manifest, request, screen);
      if request.targetHash.Some? && !verified.known {
        return Ok(Finished(BlockedResult("unknown_target_hash", None))), None;
      }
      if verified.target == Some(false) {
        return Ok(Finished(BlockedResult("target_identity_unverified_before_action", None))), None;
      }
      if verified.follow == Some(false) {
        return Ok(Finished(BlockedResult("follow_target_unverified_before_action", None))), None;
      }
      var calibration := manifest.actions(request.action);
      var done :- ResolveAll(calibration.done, request.comment);
      beforeDone := Some(HasAny(screen, done));
      if HasAny(screen, done) {
        return Ok(Finished(AlreadyDoneResult())), beforeDone;
      }
      FoundPointHits(screen, calibration.trigger);
      var trigger :- Unique(screen, calibration.trigger);
      var point :- TapPoint(trigger);
      if late {
        return Ok(Finished(BlockedResult("operation_deadline_before_mutation", beforeDone))), beforeDone;
      }
      return Ok(Ready(point)), beforeDone;
    }

    /** Reads the first screen; a risk text ends the attempt with a cooldown. */
    method Prepare(request: Request) returns (stage: Result<Stage, Failure>, beforeDone: Option<bool>)
      requires Logged() && log.checked.Some? && log == EMPTY_LOG.(checked := log.checked) && !limiter.file.Corrupt?
      modifies this`calls, this`log, limiter
      ensures Logged() && calls > old(calls) && !limiter.file.Corrupt?
      ensures log == EMPTY_LOG.(checked := old(log).checked, before := Some(old(calls)), cooled := log.cooled)
      ensures log.cooled ==
        if RiskAt(world, manifest, old(calls)) then Written(world, old(calls) + 1, true) else None
      ensures stage.Ok? && stage.value.Ready? <==>
        ShownAt(world, manifest, request, old(calls), false) &&
        TappableAt(world, manifest, old(calls), manifest.actions(request.action).trigger) && !world.late(old(calls) + 1)
      ensures stage.Ok? && stage.value.Ready? ==>
        log.cooled.None? && beforeDone == Some(false) && calls == old(calls) + 1 &&
        HitsAt(world, manifest, old(calls), manifest.actions(request.action).trigger, stage.value.point)
      ensures stage.Err? ==> log.cooled.None?
      ensures stage.Ok? && stage.value.Finished? ==>
        stage.value.result == AlreadyDoneResult() || StoppedEarly(stage.value.result)
      ensures ShownAt(world, manifest, request, old(calls), true) <==> stage == Ok(Finished(AlreadyDoneResult()))
    {
      hide RiskFree, ShowsTarget, ScreenAt, ResolveAll, HasAny, Tappable, FileAfter, Hits;
      beforeDone := None;
      log := log.(before := Some(calls));
      var screen :- ReadUi();
      if !RiskFree(manifest, screen) {
        var _ :- RecordCooldown(true);
        return Ok(Finished(BlockedResult("risk_text_detected", None))), None;
      }
      stage, beforeDone := Inspect(request, screen, world.late(calls));
    }

    /** Reads the typed comment back on a risk-free screen and finds its submit button. */
    method ReadBack(request: Request, screen: Screen, late: bool) returns (stage: Result<Stage, Failure>)
      requires RiskFree(manifest, screen)
      ensures stage.Ok? && stage.value.Ready? <==> ReadBackOn(manifest, request, screen) && !late
      ensures stage.Ok? && stage.value.Ready? ==>
        Hits(screen, manifest.actions(request.action).submit.value, stage.value.point)
      ensures stage.Ok? && stage.value.Finished? ==> StoppedEarly(stage.value.result)
    {
      hide RiskFree, MarkersVerified, ShowsTarget, Resolve, Matching, TapPoint, TargetVerification, Hits;
      var verified := TargetVerification(manifest, screen, request.targetHash, None);
      TargetShown(manifest, request.(followHandle := None), screen);
      UnknownTargetIsRefused(manifest, request.(followHandle := None), screen);
      if request.targetHash.Some? && (!verified.known || verified.target == Some(false)) {
        return Ok(Finished(BlockedResult("target_identity_unverified_before_comment_submit", Some(false))));
      }
      var calibration := manifest.actions(request.action);
      if calibration.typed.None? || calibration.submit.None? {
        return Err(ManifestError);
      }
      var typed :- Resolve(calibration.typed.value, request.comment);
      var _ :- Unique(screen, typed);
      FoundPointHits(screen, calibration.submit.value);
      var submit :- Unique(screen, calibration.submit.value);
      var point :- TapPoint(submit);
      if late {
        return Ok(Finished(BlockedResult("operation_deadline_before_comment_submit", Some(false))));
      }
      return Ok(Ready(point));
    }

    /** Types the comment and reads it back before its submit button may be tapped. */
    method EnterComment(request: Request, trigger: Point) returns (stage: Result<Stage, Failure>)
      requires Logged() && log.cooled.None? && log.recorded.None? && !limiter.file.Corrupt?
      modifies this`calls, this`inputs, this`log, limiter
      ensures Logged() && calls > old(calls) && !limiter.file.Corrupt?
      ensures inputs == old(inputs) +
        CommentInputs(request, trigger, world.tap(old(calls)).None?, world.typing(old(calls) + 1).None?)
      ensures log == old(log).(typed := log.typed, cooled := log.cooled)
      ensures log.cooled ==
        if world.tap(old(calls)).None? && world.typing(old(calls) + 1).None? && RiskAt(world, manifest, old(calls) + 2)
        then Written(world, old(calls) + 3, true) else None
      ensures stage.Ok? && stage.value.Ready? <==>
        world.tap(old(calls)).None? && world.typing(old(calls) + 1).None? &&
        ReadBackAt(world, manifest, request, old(calls) + 2) && !world.late(old(calls) + 3)
      ensures stage.Ok? && stage.value.Ready? ==>
        && log.cooled.None? && log.typed == Some(old(calls) + 2) && calls == old(calls) + 3
        && HitsAt(world, manifest, old(calls) + 2, manifest.actions(request.action).submit.value, stage.value.point)
      ensures stage.Err? ==> log.cooled.None?
      ensures stage.Ok? && stage.value.Finished? ==> StoppedEarly(stage.value.result)
    {
      hide RiskFree, ShowsTarget, ScreenAt, Resolve, Tappable, Matching, FileAfter, Hits;
      var _ :- TapAt(trigger, false);
      var _ :- TypeText(CommentText(request));
      log := log.(typed := Some(calls));
      var screen :- ReadUi();
      if !RiskFree(manifest, screen) {
        var _ :- RecordCooldown(true);
        return Ok(Finished(BlockedResult("risk_text_detected", Some(false))));
      }
      stage := ReadBack(request, screen, world.late(calls));
    }

    /** Judges the screen read after a mutation; a cooldown follows unless the effect is there. */
    method JudgeEffect(request: Request, done: seq<Selector>, screen: Screen)
      returns (result: Result<ActionResult, Failure>)
      requires Logged() && log.cooled.None? && !limiter.file.Corrupt?
      modifies this`calls, this`log, limiter
      ensures Logged() && !limiter.file.Corrupt?
      ensures calls == if Effective(manifest, request, done, screen) then old(calls) else old(calls) + 1
      ensures log == old(log).(cooled := if Effective(manifest, request, done, screen) then None
                                         else Written(world, old(calls), !RiskFree(manifest, screen)))
      ensures result.Err? <==> !Effective(manifest, request, done, screen) && world.saveFails(old(calls))
      ensures (result.Ok? && result.value.status == Succeeded) <==> Effective(manifest, request, done, screen)
      ensures result.Ok? && result.value.status == Succeeded ==>
        result.value.outcomeKnown && !result.value.halt && result.value.mutationAttempted
      ensures result.Ok? && result.value.status != Succeeded ==> Unconfirmed(result.value)
    {
      hide RiskFree, FileAfter, HasAny, TargetVerification;
      if !RiskFree(manifest, screen) {
        var _ :- RecordCooldown(true);
        return Ok(UnconfirmedResult(Blocked, "risk_text_detected", Some(false), None));
      }
      var verified := TargetVerification(manifest, screen, request.targetHash, request.followHandle);
      if verified.target == Some(false) || verified.follow == Some(false) {
        var _ :- RecordCooldown(false);
        return Ok(UnconfirmedResult(Unknown,
          if verified.follow == Some(false) then "follow_target_unverified_after_action"
          else "target_identity_unverified_after_action", Some(false), None));
      }
      if !HasAny(screen, done) {
        var _ :- RecordCooldown(false);
        return Ok(UnconfirmedResult(Unknown, "done_state_missing_after_action", Some(false), Some(false)));
      }
      return Ok(ActionResult(Succeeded, "done_state_confirmed", true, false, true, Some(false), Some(true), 0.0));
    }

    /** Records the mutation that has just returned and looks for its effect. */
    method Confirm(request: Request, done: seq<Selector>) returns (result: Result<ActionResult, Failure>)
      requires Logged() && log.cooled.None? && log.recorded.None? && log.after.None? && !limiter.file.Corrupt?
      requires ResolveAll(manifest.actions(request.action).done, request.comment) == Ok(done)
      modifies this`calls, this`log, limiter
      ensures Logged() && !limiter.file.Corrupt? && calls == AfterConfirm(world, manifest, request, old(calls))
      ensures log == old(log).(recorded := log.recorded, after := log.after, cooled := log.cooled)
      ensures log.recorded == if world.saveFails(old(calls)) then None else Some(old(calls))
      ensures log.after == if log.recorded.Some? then Some(old(calls) + 1) else None
      ensures log.cooled == ConfirmCooldown(world, manifest, request, old(calls))
      ensures result.Err? <==> ConfirmFails(world, manifest, request, old(calls))
      ensures (result.Ok? && result.value.status == Succeeded) <==>
        log.after.Some? && ShownAt(world, manifest, request, log.after.value, true)
      ensures result.Ok? && result.value.status == Succeeded ==>
        result.value.outcomeKnown && !result.value.halt && result.value.mutationAttempted
      ensures result.Ok? && result.value.status != Succeeded ==> Unconfirmed(result.value)
    {
      hide ScreenAt, FileAfter, ResolveAll, ShownOn, Effective, RiskFree;
      var _ :- RecordMutation();
      log := log.(after := Some(calls));
      var screen :- ReadUi();
      EffectiveIsShown(manifest, request, done, screen);
      result := JudgeEffect(request, done, screen);
    }

    /** Everything up to the mutating tap: the first screen and, for a comment, typing it. */
    method Approach(request: Request)
      returns (stage: Result<Stage, Failure>, beforeDone: Option<bool>, ghost made: seq<Input>)
      requires Logged() && log.checked.Some? && log == EMPTY_LOG.(checked := log.checked) && !limiter.file.Corrupt?
      modifies this`calls, this`inputs, this`log, limiter
      ensures Logged() && calls > old(calls) && !limiter.file.Corrupt?
      ensures inputs == old(inputs) + made && LeadsUp(world, manifest, request, old(calls), made)
      ensures Mutations(inputs) == Mutations(old(inputs))
      ensures stage.Ok? && stage.value.Ready? ==>
        && |made| == (if request.action == Comment then 2 else 0)
        && MutatesRightly(world, manifest, request, log, stage.value.point)
      ensures log == EMPTY_LOG.(checked := old(log).checked, before := Some(old(calls)), typed := log.typed,
                                cooled := ApproachCooldown(world, manifest, request, old(calls)))
      ensures log.cooled.Some? ==> old(calls) < log.cooled.value.0
      ensures stage.Ok? && stage.value.Ready? <==> Approached(world, manifest, request, old(calls))
      ensures stage.Ok? && stage.value.Ready? ==>
        && log.cooled.None? && calls == TapCall(request, old(calls))
        && log.typed == if request.action == Comment then Some(old(calls) + 3) else None
      ensures stage.Err? ==> log.cooled.None?
      ensures stage.Ok? && stage.value.Finished? ==>
        stage.value.result == AlreadyDoneResult() || StoppedEarly(stage.value.result)
      ensures ShownAt(world, manifest, request, old(calls), true) <==> stage == Ok(Finished(AlreadyDoneResult()))
    {
      hide ShownAt, TappableAt, RiskAt, FileAfter, HitsAt, Mutations, LeadsUp;
      ghost var first := calls;
      stage, beforeDone := Prepare(request);
      ScreenFacts(world, manifest, request, first);
      made := [];
      NothingLeadsUp(world, manifest, request, first);
      if stage.Ok? && stage.value.Ready? && request.action == Comment {
        var field := stage.value.point;
        stage := EnterComment(request, field);
        made := CommentInputs(request, field, world.tap(first + 1).None?, world.typing(first + 2).None?);
        TypingLeadsUp(world, manifest, request, first, field, world.tap(first + 1).None?,
                      world.typing(first + 2).None?);
      }
      LeadingUpMutatesNothing(world, manifest, request, first, old(inputs), made);
    }

    /** The mutating tap, and what comes of it. */
    method Mutate(request: Request, point: Point) returns (result: Result<ActionResult, Failure>, mutated: bool)
      requires Logged() && !limiter.file.Corrupt?
      requires log.tapped.None? && log.recorded.None? && log.after.None? && log.cooled.None?
      requires ResolveAll(manifest.actions(request.action).done, request.comment).Ok?
      modifies this`calls, this`inputs, this`log, limiter
      ensures Logged() && !limiter.file.Corrupt? && calls > old(calls)
      ensures mutated == world.tap(old(calls)).None?
      ensures inputs == old(inputs) + if mutated then [Tap(point, true)] else []
      ensures Mutations(inputs) == Mutations(old(inputs)) + if mutated then 1 else 0
      ensures !mutated ==> log == old(log) && result.Err?
      ensures mutated ==>
        && log == old(log).(tapped := Some(old(calls)), recorded := log.recorded, after := log.after,
                            cooled := ConfirmCooldown(world, manifest, request, old(calls) + 1))
        && log.recorded == (if world.saveFails(old(calls) + 1) then None else Some(old(calls) + 1))
        && log.after == (if log.recorded.Some? then Some(old(calls) + 2) else None)
        && calls == AfterConfirm(world, manifest, request, old(calls) + 1)
        && (result.Err? <==> ConfirmFails(world, manifest, request, old(calls) + 1))
      ensures (result.Ok? && result.value.status == Succeeded) <==>
        log.after.Some? && ShownAt(world, manifest, request, log.after.value, true)
      ensures result.Ok? ==>
        if result.value.status == Succeeded then
          result.value.outcomeKnown && !result.value.halt && result.value.mutationAttempted
        else Unconfirmed(result.value)
    {
      hide ShownAt, FileAfter, ResolveAll, AfterConfirm, ConfirmCooldown, ConfirmFails;
      mutated := false;
      var tapped := TapAt(point, true);
      if tapped.Err? {
        return Err(tapped.error), mutated;
      }
      mutated := true;
      log := log.(tapped := Some(calls - 1));
      result := Confirm(request, ResolveAll(manifest.actions(request.action).done, request.comment).value);
    }

    /** The attempt itself; a failure of any call ends it and is classified by the caller. */
    method Attempt(request: Request)
      returns (result: Result<ActionResult, Failure>, beforeDone: Option<bool>, mutated: bool,
               ghost made: seq<Input>)
      requires Logged() && log.checked.Some? && log == EMPTY_LOG.(checked := log.checked)
      requires !startFile.Corrupt? && DecideFile(limiter.policy, startFile, world.clock(log.checked.value)) == Allowed
      modifies this`calls, this`inputs, this`log, limiter
      ensures Logged() && log.checked == old(log).checked && calls > old(calls) && !limiter.file.Corrupt?
      ensures mutated == log.tapped.Some?
      ensures Determined(world, manifest, request, old(calls), log)
      ensures Mutations(inputs) == Mutations(old(inputs)) + if log.tapped.Some? then 1 else 0
      ensures inputs == old(inputs) + made && WellPlaced(world, manifest, request, log, made)
      ensures TappedProperly(world, manifest, limiter.policy, startFile, request, log)
      ensures result.Ok? ==> Classified(world, manifest, request, log, result.value)
      ensures result.Ok? ==> log.cooled == Cooldown(world, manifest, request, old(calls))
      ensures result.Err? ==> log.cooled.None?
      ensures result.Err? ==>
        Cooldown(world, manifest, request, old(calls)) == (if mutated then Written(world, calls, false) else None)
      ensures result.Err? && log.before.Some? ==> !ShownAt(world, manifest, request, log.before.value, true)
      ensures result.Err? && log.after.Some? ==> !ShownAt(world, manifest, request, log.after.value, true)
      ensures result.Ok? && !result.value.outcomeKnown ==> log.cooled.Some?
    {
      hide ShownAt, TypedAt, FileAfter, Decide, DecideFile, Approached, ApproachCooldown, ResolveAll, ScreenAt, RiskAt;
      hide AfterConfirm, Mutations, LeadsUp, MutatesRightly, WellPlaced, Classified;
      mutated := false;
      ghost var first := calls;
      UnwrittenFile(limiter.policy, world, startFile);
      if Approached(world, manifest, request, first) {
        ApproachMeans(world, manifest, request, first);
      }
      ScreenFacts(world, manifest, request, first);
      var stage: Result<Stage, Failure>;
      stage, beforeDone, made := Approach(request);
      WellPlacedSoFar(world, manifest, request, log, made);
      if stage.Err? {
        return Err(stage.error), beforeDone, mutated, made;
      }
      if stage.value.Finished? {
        FinishedIsClassified(world, manifest, request, log, stage.value.result);
        return Ok(stage.value.result), beforeDone, mutated, made;
      }
      var point := stage.value.point;
      ghost var approached := log;
      result, mutated := Mutate(request, point);
      if mutated {
        WellPlacedAtLast(world, manifest, request, approached, log, made, point);
        made := made + [Tap(point, true)];
        if result.Ok? {
          MutatedIsClassified(world, manifest, request, log, result.value);
        }
      }
    }

    /** Asks the limiter; a refusal stops the request before anything is read. */
    method Admit() returns (refusal: Option<ActionResult>)
      modifies this`calls
      ensures calls == old(calls) + 1
      ensures refusal.None? <==> AllowedAt(world, limiter.policy, limiter.file, old(calls))
      ensures refusal.Some? ==>
        StoppedEarly(refusal.value) &&
          refusal.value.retryAfter == AdvisedWait(world, limiter.policy, limiter.file, old(calls))
    {
      hide Decide;
      var n := calls;
      calls := calls + 1;
      if world.stateUnreadable(n) {
        return Some(BlockedResult("invalid_rate_limit_state", None));
      }
      var decision := limiter.Check(world.clock(n));
      if decision.Err? {
        return Some(BlockedResult("invalid_rate_limit_state", None));
      }
      if decision.value.Denied? {
        return Some(ActionResult(Blocked, ReasonCode(decision.value.reason), true, true, false, None, None,
                                 Later(0.0, decision.value.retryAfter)));
      }
      return None;
    }

    /** One request under the account lock. */
    method ExecuteLocked(request: Request) returns (result: ActionResult, ghost made: seq<Input>)
      modifies this, limiter
      ensures Logged() && startFile == old(limiter.file) && calls > old(calls)
      ensures Mutations(inputs) == Mutations(old(inputs)) + if log.tapped.Some? then 1 else 0
      ensures inputs == old(inputs) + made && WellPlaced(world, manifest, request, log, made)
      ensures TappedProperly(world, manifest, limiter.policy, startFile, request, log)
      ensures Classified(world, manifest, request, log, result)
      ensures log.checked == Some(old(calls))
      ensures Runs(world, manifest, limiter.policy, startFile, request, old(calls), log)
      ensures log.before.None? ==> result.retryAfter == AdvisedWait(world, limiter.policy, startFile, old(calls))
      ensures !result.outcomeKnown && log.cooled.None? ==> world.saveFails(calls - 1) || limiter.file.Corrupt?
    {
      hide ShownAt, TypedAt, AfterMutation, AfterCooldown, FileAfter, Mutates, TapCall, AdvisedWait, DecideFile;
      hide Cooldown, Mutations, Classified, WellPlaced, LeadsUp;
      startFile := limiter.file;
      UnwrittenFile(limiter.policy, world, startFile);
      log := EMPTY_LOG.(checked := Some(calls));
      var refusal := Admit();
      if refusal.Some? {
        WellPlacedSoFar(world, manifest, request, log, []);
        RefusalIsClassified(world, manifest, request, log, refusal.value);
        return refusal.value, [];
      }
      var outcome, beforeDone, mutated;
      outcome, beforeDone, mutated, made := Attempt(request);
      if outcome.Ok? {
        return outcome.value, made;
      }
      ghost var attempted := log;
      result := Abandon(request, beforeDone, mutated);
      SamePlaces(world, manifest, request, attempted, log, made);
    }

    /** What a failure that nothing else answers comes to: after a mutation, one more cooldown is tried. */
    method Abandon(request: Request, beforeDone: Option<bool>, mutated: bool) returns (result: ActionResult)
      requires Logged() && log.cooled.None? && mutated == log.tapped.Some?
      requires log.before.Some? ==> !ShownAt(world, manifest, request, log.before.value, true)
      requires log.after.Some? ==> !ShownAt(world, manifest, request, log.after.value, true)
      modifies this`calls, this`log, limiter
      ensures Logged() && limiter.file.Corrupt? == old(limiter.file).Corrupt?
      ensures calls == old(calls) + if mutated then 1 else 0
      ensures Classified(world, manifest, request, log, result) && (!result.outcomeKnown <==> mutated)
      ensures log == old(log).(cooled := log.cooled)
      ensures log.cooled == if mutated && !limiter.file.Corrupt? then Written(world, old(calls), false) else None
    {
      hide ShownAt;
      if mutated {
        var _ := RecordCooldown(false);
        return UnconfirmedResult(Unknown, "unconfirmed_after_mutation", beforeDone, None);
      }
      return BlockedResult("precondition_failed", beforeDone);
    }

    /** One request: an account lock that cannot be taken stops it before anything else. */
    method Execute(request: Request) returns (result: ActionResult)
      modifies this, limiter
      ensures Logged() && startFile == old(limiter.file) && calls > old(calls)
      ensures Mutations(inputs) == Mutations(old(inputs)) + if log.tapped.Some? then 1 else 0
      ensures old(inputs) <= inputs && WellPlaced(world, manifest, request, log, inputs[|old(inputs)|..])
      ensures TappedProperly(world, manifest, limiter.policy, startFile, request, log)
      ensures Executed(world, manifest, limiter.policy, startFile, request, old(calls), log, result)
      ensures log.checked.Some? ==> log.checked.value > old(calls)
      ensures !result.outcomeKnown && log.cooled.None? ==> world.saveFails(calls - 1) || limiter.file.Corrupt?
    {
      hide ShownAt, AllowedAt, Determined, Cooldown, Mutations, FileAfter, LeadsUp, WellPlaced;
      var failure := world.lock(calls);
      calls := calls + 1;
      if failure.Some? {
        startFile := limiter.file;
        UnwrittenFile(limiter.policy, world, startFile);
        log := EMPTY_LOG;
        WellPlacedSoFar(world, manifest, request, log, []);
        assert inputs[|old(inputs)|..] == [];
        return BlockedResult(
          if failure.value == HeldElsewhere then "account_lock_held" else "account_lock_unavailable", None);
      }
      ghost var made;
      result, made := ExecuteLocked(request);
      assert inputs[|old(inputs)|..] == made;
    }
  }

  // ----- The attempt as steps of the limiter -----

  ghost predicate SteadyClock(world: World) {
    forall i: nat, j: nat | i <= j :: world.clock(i) <= world.clock(j)
  }

  /** The limiter steps of one attempt. */
  function StepsOf(world: World, log: Log): seq<Step> {
    (if log.recorded.Some? && log.checked.Some? then
       [Acted(world.clock(log.checked.value), world.clock(log.recorded.value))] else []) +
    (if log.cooled.Some? then [Cooled(world.clock(log.cooled.value.0), log.cooled.value.1)] else [])
  }

  /** When the attempt recorded its mutation, if it did. */
  function RecordTime(world: World, log: Log): seq<real> {
    if log.recorded.Some? then [world.clock(log.recorded.value)] else []
  }

  predicate Holds(file: StateFile, s: State) {
    !file.Corrupt? && Times(file) == s.times && Deadline(file) == s.cooldown
  }

  /** An attempt writes the state file as a run of the limiter does, checking before it records. */
  lemma AttemptIsLimiterRun(world: World, manifest: Manifest, policy: Policy, file: StateFile, request: Request,
                            log: Log, s: State, last: nat)
    requires s.clock <= world.clock(last) && (log.recorded.Some? ==> log.recorded.value <= last)
    requires log.cooled.Some? ==> log.cooled.value.0 <= last
    requires TappedProperly(world, manifest, policy, file, request, log) && SteadyClock(world)
    requires Holds(file, s) && (log.checked.Some? ==> s.clock <= world.clock(log.checked.value))
    ensures Run(policy, s, StepsOf(world, log))
    ensures Holds(FileAfter(policy, world, file, log.recorded, log.cooled), End(policy, s, StepsOf(world, log)))
    ensures End(policy, s, StepsOf(world, log)).clock <= world.clock(last)
    ensures End(policy, s, StepsOf(world, log)).history == s.history + RecordTime(world, log)
  {
    var steps := StepsOf(world, log);
    var middle := s;
    if log.recorded.Some? {
      var acted := Acted(world.clock(log.checked.value), world.clock(log.recorded.value));
      assert steps[0] == acted && Enabled(policy, s, acted);
      middle := Apply(policy, s, acted);
      assert Run(policy, middle, steps[1..]) && End(policy, middle, steps[1..]) == End(policy, s, steps) by {
        LastStep(world, policy, middle, log, steps[1..]);
      }
    }
    LastStep(world, policy, middle, log, if log.recorded.Some? then steps[1..] else steps);
  }

  lemma LastStep(world: World, policy: Policy, s: State, log: Log, steps: seq<Step>)
    requires steps == if log.cooled.Some? then [Cooled(world.clock(log.cooled.value.0), log.cooled.value.1)] else []
    requires log.cooled.Some? ==> s.clock <= world.clock(log.cooled.value.0)
    ensures Run(policy, s, steps)
    ensures End(policy, s, steps) == if log.cooled.Some? then Apply(policy, s, steps[0]) else s
  {
    if log.cooled.Some? {
      assert steps[1..] == [];
      assert End(policy, Apply(policy, s, steps[0]), []) == Apply(policy, s, steps[0]);
    }
  }
}
