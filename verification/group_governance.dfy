/**
 The consumer-group governance report: which groups block retention of a stream.
 The module proves what a clean report says about the stream it was taken from.
 */
module GroupGovernance {
  import opened Results
  import opened StreamIds
  import opened TaskStreams
  import opened GroupRetirement
  import opened Text

  const MAX_OBSERVED_CONSUMER_GROUPS := MAX_SAFE_TERMINAL_CONSUMER_GROUPS

  /** One XINFO GROUPS record; a field is None when it is missing or not an integer. */
  datatype GroupRow = GroupRow(name: string, pending: Option<int>, lag: Option<int>, consumers: Option<int>)

  /** Idle times by group; None when the group's consumers could not be read. */
  type ConsumerRows = map<string, Option<seq<Option<int>>>>

  datatype Report = Report(
    available: bool, retentionAlert: bool, consumerInventoryAlert: bool,
    observed: set<string>, missing: set<string>, unexpected: set<string>, stale: set<string>,
    xdelBlocked: set<string>, retentionBlocked: set<string>,
    unavailable: set<string>, oversized: set<string>, invalidNames: nat, staleEntries: nat)

  // ----- Reading one record -----

  predicate IsNameStart(c: char) {
    'A' <= c <= 'Z' || 'a' <= c <= 'z' || '0' <= c <= '9'
  }

  predicate IsNameChar(c: char) {
    IsNameStart(c) || c == ':' || c == '.' || c == '_' || c == '-'
  }

  predicate IsGroupName(name: string) {
    1 <= |name| <= 128 && IsNameStart(name[0]) && forall i | 1 <= i < |name| :: IsNameChar(name[i])
  }

  function NormalizedName(raw: string): Option<string> {
    var name := Strip(raw);
    if IsGroupName(name) then Some(name) else None
  }

  function NonNegative(value: Option<int>): Option<nat> {
    if value.Some? && value.value >= 0 then Some(value.value) else None
  }

  predicate XdelBlocked(row: GroupRow, streamLength: Option<nat>) {
    var pending, lag := NonNegative(row.pending), NonNegative(row.lag);
    var pendingBlocks := pending.None? || pending.value > 0;
    var lagBlocks := if lag.None? && streamLength == Some(0) && pending == Some(0) then false
                     else lag.None? || lag.value > 0;
    pendingBlocks || lagBlocks
  }

  predicate Oversized(row: GroupRow, name: string, consumers: ConsumerRows) {
    || (NonNegative(row.consumers).Some? && NonNegative(row.consumers).value > MAX_OBSERVED_CONSUMERS_PER_GROUP)
    || (name in consumers && consumers[name].Some? && |consumers[name].value| > MAX_OBSERVED_CONSUMERS_PER_GROUP)
  }

  predicate ConsumersAvailable(row: GroupRow, name: string, consumers: ConsumerRows) {
    name in consumers && consumers[name].Some? && !Oversized(row, name, consumers)
  }

  function CountIdle(rows: seq<Option<int>>, staleAfter: nat, active: bool): nat {
    if rows == [] then 0
    else
      var idle := NonNegative(rows[|rows| - 1]);
      CountIdle(rows[..|rows| - 1], staleAfter, active) +
        if idle.Some? && (idle.value <= staleAfter) == active then 1 else 0
  }

  /** All consumers were read and none of them was active within the window. */
  predicate Stale(row: GroupRow, name: string, consumers: ConsumerRows, staleAfter: nat) {
    ConsumersAvailable(row, name, consumers) && CountIdle(consumers[name].value, staleAfter, true) == 0
  }

  /**
   A row does not block deletion exactly when its pending figure is known to be zero and its lag is too, or
   the lag is unknown and the stream is known to be empty. A negative figure is unknown.
   */
  lemma UnblockedRowIff(row: GroupRow, streamLength: Option<nat>)
    ensures !XdelBlocked(row, streamLength) <==>
      && row.pending == Some(0)
      && (row.lag == Some(0) || ((row.lag.None? || row.lag.value < 0) && streamLength == Some(0)))
  {
  }

  /** The known idle times within the window, or beyond it. */
  function IdleIndices(rows: seq<Option<int>>, window: nat, within: bool): set<nat> {
    set k: nat | k < |rows| && rows[k].Some? && rows[k].value >= 0 && (within <==> rows[k].value <= window)
  }

  lemma {:induction false} IdleIsCounted(rows: seq<Option<int>>, window: nat, within: bool)
    ensures CountIdle(rows, window, within) == |IdleIndices(rows, window, within)|
  {
    if rows == [] {
      assert IdleIndices(rows, window, within) == {};
    } else {
      var n, front := |rows| - 1, rows[..|rows| - 1];
      IdleIsCounted(front, window, within);
      var all, before := IdleIndices(rows, window, within), IdleIndices(front, window, within);
      if rows[n].Some? && rows[n].value >= 0 && (within <==> rows[n].value <= window) {
        assert all == before + {n};
      } else {
        assert all == before;
      }
    }
  }

  /** A group is stale exactly when its consumers were read, none too many, and none was seen within the window. */
  lemma StaleIff(row: GroupRow, name: string, consumers: ConsumerRows, window: nat)
    ensures Stale(row, name, consumers, window) <==>
      && name in consumers && consumers[name].Some? && |consumers[name].value| <= 256
      && (row.consumers.Some? ==> row.consumers.value <= 256)
      && forall k | 0 <= k < |consumers[name].value| ::
           var idle := consumers[name].value[k]; idle.None? || idle.value < 0 || idle.value > window
  {
    hide CountIdle;
    if name in consumers && consumers[name].Some? {
      var rows := consumers[name].value;
      var active := IdleIndices(rows, window, true);
      IdleIsCounted(rows, window, true);
      if k: nat :| k < |rows| && !(rows[k].None? || rows[k].value < 0 || rows[k].value > window) {
        assert k in active;
      } else {
        assert active == {};
      }
    }
  }

  /** Consumers count as read exactly when their list was and neither it nor the group's own figure is too long. */
  lemma AvailableIff(row: GroupRow, name: string, consumers: ConsumerRows)
    ensures ConsumersAvailable(row, name, consumers) <==>
      && name in consumers && consumers[name].Some? && |consumers[name].value| <= 256
      && (row.consumers.Some? ==> row.consumers.value <= 256)
  {
  }

  /** A name is read exactly when white space around it is all that hides 1 to 128 characters of the right kinds. */
  lemma NameIsReadIff(raw: string, name: string)
    ensures NormalizedName(raw) == Some(name) <==>
      && 1 <= |name| <= 128 && IsNameStart(name[0]) && (forall i | 1 <= i < |name| :: IsNameChar(name[i]))
      && exists gap, tail :: Spaces(gap) && Spaces(tail) && raw == gap + name + tail
  {
    hide Strip, Spaces;
    if name != "" {
      StripMeans(raw, name);
    }
  }

  // ----- First record of each name -----

  /** Row i is the first one with this valid name. */
  ghost predicate FirstNamed(rows: seq<GroupRow>, i: nat, name: string) {
    && i < |rows| && NormalizedName(rows[i].name) == Some(name)
    && forall j | 0 <= j < i :: NormalizedName(rows[j].name) != Some(name)
  }

  /** The set holds exactly the names whose first row among the first k satisfies p. */
  ghost predicate Collects(names: set<string>, rows: seq<GroupRow>, k: nat, p: (GroupRow, string) -> bool) {
    forall name :: name in names <==> exists i: nat :: i < k && FirstNamed(rows, i, name) && p(rows[i], name)
  }

  function With(names: set<string>, name: string, add: bool): set<string> {
    if add then names + {name} else names
  }

  lemma CollectsRow(names: set<string>, rows: seq<GroupRow>, k: nat, name: string, p: (GroupRow, string) -> bool)
    requires k < |rows| && FirstNamed(rows, k, name)
    requires Collects(names, rows, k, p)
    ensures Collects(With(names, name, p(rows[k], name)), rows, k + 1, p)
  {
    var names' := With(names, name, p(rows[k], name));
    forall n
      ensures n in names' <==> exists i: nat :: i < k + 1 && FirstNamed(rows, i, n) && p(rows[i], n)
    {
      if n in names' {
        if n in names {
          var i: nat :| i < k && FirstNamed(rows, i, n) && p(rows[i], n);
        } else {
          assert FirstNamed(rows, k, n);
        }
      }
    }
  }

  lemma CollectsNothing(names: set<string>, rows: seq<GroupRow>, k: nat, p: (GroupRow, string) -> bool)
    requires k < |rows| && forall name :: !FirstNamed(rows, k, name)
    requires Collects(names, rows, k, p)
    ensures Collects(names, rows, k + 1, p)
  {
    hide FirstNamed;
    forall n
      ensures n in names <==> exists i: nat :: i < k + 1 && FirstNamed(rows, i, n) && p(rows[i], n)
    {
      if i: nat :| i < k + 1 && FirstNamed(rows, i, n) && p(rows[i], n) {
        assert i < k;
      }
    }
  }

  // ----- The evaluation loop -----

  /** The parameters of one evaluation. */
  datatype Inputs = Inputs(expected: set<string>, consumers: ConsumerRows, staleAfter: nat, streamLength: Option<nat>)

  datatype Tally = Tally(observed: set<string>, unexpected: set<string>, stale: set<string>, xdelBlocked: set<string>,
                         retentionBlocked: set<string>, unavailable: set<string>, oversized: set<string>,
                         invalidNames: nat, staleEntries: nat)

  ghost function Anyone(): (GroupRow, string) -> bool {
    (row: GroupRow, name: string) => true
  }

  ghost function IsUnexpected(q: Inputs): (GroupRow, string) -> bool {
    (row: GroupRow, name: string) => name !in q.expected
  }

  ghost function IsStale(q: Inputs): (GroupRow, string) -> bool {
    (row: GroupRow, name: string) => Stale(row, name, q.consumers, q.staleAfter)
  }

  ghost function BlocksXdel(q: Inputs): (GroupRow, string) -> bool {
    (row: GroupRow, name: string) => XdelBlocked(row, q.streamLength)
  }

  ghost function BlocksRetention(q: Inputs): (GroupRow, string) -> bool {
    (row: GroupRow, name: string) =>
      XdelBlocked(row, q.streamLength) &&
      (Stale(row, name, q.consumers, q.staleAfter) || name !in q.expected ||
        !ConsumersAvailable(row, name, q.consumers))
  }

  ghost function IsUnavailable(q: Inputs): (GroupRow, string) -> bool {
    (row: GroupRow, name: string) => !ConsumersAvailable(row, name, q.consumers)
  }

  ghost function IsOversized(q: Inputs): (GroupRow, string) -> bool {
    (row: GroupRow, name: string) => Oversized(row, name, q.consumers)
  }

  /** A row that blocks deletion is put up with exactly for an expected group with a consumer seen within the window. */
  lemma ToleratedIff(row: GroupRow, name: string, q: Inputs)
    ensures !BlocksRetention(q)(row, name) <==>
      || !XdelBlocked(row, q.streamLength)
      || (&& name in q.expected && ConsumersAvailable(row, name, q.consumers)
          && exists k | 0 <= k < |q.consumers[name].value| ::
               var idle := q.consumers[name].value[k]; idle.Some? && 0 <= idle.value <= q.staleAfter)
  {
    hide CountIdle, XdelBlocked;
    StaleIff(row, name, q.consumers, q.staleAfter);
    AvailableIff(row, name, q.consumers);
  }

  /** The stale consumers of a row, counted when it is the first of its name and its consumers were read. */
  ghost function RowStaleConsumers(rows: seq<GroupRow>, k: nat, q: Inputs): nat
    requires k < |rows|
  {
    var name := NormalizedName(rows[k].name);
    if name.Some? && FirstNamed(rows, k, name.value) && ConsumersAvailable(rows[k], name.value, q.consumers)
    then CountIdle(q.consumers[name.value].value, q.staleAfter, false) else 0
  }

  ghost function StaleConsumers(rows: seq<GroupRow>, k: nat, q: Inputs): nat
    requires k <= |rows|
  {
    if k == 0 then 0 else StaleConsumers(rows, k - 1, q) + RowStaleConsumers(rows, k - 1, q)
  }

  /** Each set of the tally holds exactly the first-seen names, among k rows, that its condition picks. */
  ghost predicate Tallied(t: Tally, rows: seq<GroupRow>, k: nat, q: Inputs)
    requires k <= |rows|
  {
    && Collects(t.observed, rows, k, Anyone())
    && Collects(t.unexpected, rows, k, IsUnexpected(q))
    && Collects(t.stale, rows, k, IsStale(q))
    && Collects(t.xdelBlocked, rows, k, BlocksXdel(q))
    && Collects(t.retentionBlocked, rows, k, BlocksRetention(q))
    && Collects(t.unavailable, rows, k, IsUnavailable(q))
    && Collects(t.oversized, rows, k, IsOversized(q))
    && t.invalidNames == k - |t.observed|
    && t.staleEntries == StaleConsumers(rows, k, q)
  }

  lemma SkippedRowIsNotFirst(t: Tally, rows: seq<GroupRow>, k: nat, q: Inputs)
    requires k < |rows| && Tallied(t, rows, k, q)
    requires NormalizedName(rows[k].name).None? || NormalizedName(rows[k].name).value in t.observed
    ensures Tallied(t.(invalidNames := t.invalidNames + 1), rows, k + 1, q)
  {
    var normalized := NormalizedName(rows[k].name);
    if normalized.Some? {
      var i: nat :| i < k && FirstNamed(rows, i, normalized.value);
    }
    assert RowStaleConsumers(rows, k, q) == 0;
    CollectsNothing(t.observed, rows, k, Anyone());
    CollectsNothing(t.unexpected, rows, k, IsUnexpected(q));
    CollectsNothing(t.stale, rows, k, IsStale(q));
    CollectsNothing(t.xdelBlocked, rows, k, BlocksXdel(q));
    CollectsNothing(t.retentionBlocked, rows, k, BlocksRetention(q));
    CollectsNothing(t.unavailable, rows, k, IsUnavailable(q));
    CollectsNothing(t.oversized, rows, k, IsOversized(q));
  }

  lemma NewNameIsFirst(t: Tally, rows: seq<GroupRow>, k: nat, name: string, q: Inputs)
    requires k < |rows| && Tallied(t, rows, k, q)
    requires NormalizedName(rows[k].name) == Some(name) && name !in t.observed
    ensures FirstNamed(rows, k, name)
  {
    forall j | 0 <= j < k
      ensures NormalizedName(rows[j].name) != Some(name)
    {
      NameIsSeenByFirst(rows, j, name);
    }
  }

  lemma {:induction false} NameIsSeenByFirst(rows: seq<GroupRow>, j: nat, name: string)
    requires j < |rows|
    ensures NormalizedName(rows[j].name) == Some(name) ==> exists i: nat :: i <= j && FirstNamed(rows, i, name)
    decreases j
  {
    if NormalizedName(rows[j].name) == Some(name) {
      if i :| 0 <= i < j && NormalizedName(rows[i].name) == Some(name) {
        NameIsSeenByFirst(rows, i, name);
      } else {
        assert FirstNamed(rows, j, name);
      }
    }
  }

  method CountConsumers(rows: seq<Option<int>>, staleAfter: nat) returns (active: nat, stale: nat)
    ensures active == CountIdle(rows, staleAfter, true)
    ensures stale == CountIdle(rows, staleAfter, false)
  {
    active, stale := 0, 0;
    for k := 0 to |rows|
      invariant active == CountIdle(rows[..k], staleAfter, true)
      invariant stale == CountIdle(rows[..k], staleAfter, false)
    {
      assert rows[..k + 1][..k] == rows[..k];
      var idle := NonNegative(rows[k]);
      if idle.Some? && idle.value <= staleAfter {
        active := active + 1;
      } else if idle.Some? {
        stale := stale + 1;
      }
    }
    assert rows[..|rows|] == rows;
  }

  method InspectRow(t: Tally, rows: seq<GroupRow>, k: nat, q: Inputs) returns (t': Tally)
    requires k < |rows| && Tallied(t, rows, k, q)
    ensures Tallied(t', rows, k + 1, q)
  {
    hide Tallied, FirstNamed;
    var row := rows[k];
    var normalized := NormalizedName(row.name);
    if normalized.None? || normalized.value in t.observed {
      SkippedRowIsNotFirst(t, rows, k, q);
      return t.(invalidNames := t.invalidNames + 1);
    }
    var name := normalized.value;
    NewNameIsFirst(t, rows, k, name, q);
    var unexpected := name !in q.expected;
    var oversized := Oversized(row, name, q.consumers);
    var available := ConsumersAvailable(row, name, q.consumers);
    var active, staleConsumers := 0, 0;
    if available {
      active, staleConsumers := CountConsumers(q.consumers[name].value, q.staleAfter);
    }
    var stale := available && active == 0;
    var blocked := XdelBlocked(row, q.streamLength);
    var retentionBlocked := blocked && (stale || unexpected || !available);
    t' := Tally(t.observed + {name}, With(t.unexpected, name, unexpected), With(t.stale, name, stale),
                With(t.xdelBlocked, name, blocked), With(t.retentionBlocked, name, retentionBlocked),
                With(t.unavailable, name, !available), With(t.oversized, name, oversized),
                t.invalidNames, t.staleEntries + staleConsumers);
    NewRowIsTallied(t, t', rows, k, name, q);
  }

  lemma FirstRowsConsumers(rows: seq<GroupRow>, k: nat, name: string, q: Inputs)
    requires FirstNamed(rows, k, name)
    ensures StaleConsumers(rows, k + 1, q) == StaleConsumers(rows, k, q) +
      if ConsumersAvailable(rows[k], name, q.consumers) then CountIdle(q.consumers[name].value, q.staleAfter, false)
      else 0
  {
    hide NormalizedName, ConsumersAvailable, CountIdle;
  }

  lemma NewRowIsTallied(t: Tally, t': Tally, rows: seq<GroupRow>, k: nat, name: string, q: Inputs)
    requires k < |rows| && Tallied(t, rows, k, q) && FirstNamed(rows, k, name) && name !in t.observed
    requires t'.observed == With(t.observed, name, Anyone()(rows[k], name))
    requires t'.unexpected == With(t.unexpected, name, IsUnexpected(q)(rows[k], name))
    requires t'.stale == With(t.stale, name, IsStale(q)(rows[k], name))
    requires t'.xdelBlocked == With(t.xdelBlocked, name, BlocksXdel(q)(rows[k], name))
    requires t'.retentionBlocked == With(t.retentionBlocked, name, BlocksRetention(q)(rows[k], name))
    requires t'.unavailable == With(t.unavailable, name, IsUnavailable(q)(rows[k], name))
    requires t'.oversized == With(t.oversized, name, IsOversized(q)(rows[k], name))
    requires t'.invalidNames == t.invalidNames
    requires t'.staleEntries == t.staleEntries +
      if ConsumersAvailable(rows[k], name, q.consumers) then CountIdle(q.consumers[name].value, q.staleAfter, false)
      else 0
    ensures Tallied(t', rows, k + 1, q)
  {
    hide Collects, FirstNamed, StaleConsumers, NormalizedName, CountIdle;
    FirstRowsConsumers(rows, k, name, q);
    CollectsRow(t.observed, rows, k, name, Anyone());
    CollectsRow(t.unexpected, rows, k, name, IsUnexpected(q));
    CollectsRow(t.stale, rows, k, name, IsStale(q));
    CollectsRow(t.xdelBlocked, rows, k, name, BlocksXdel(q));
    CollectsRow(t.retentionBlocked, rows, k, name, BlocksRetention(q));
    CollectsRow(t.unavailable, rows, k, name, IsUnavailable(q));
    CollectsRow(t.oversized, rows, k, name, IsOversized(q));
  }

  function Inspected(rows: seq<GroupRow>): seq<GroupRow> {
    if |rows| > MAX_OBSERVED_CONSUMER_GROUPS then rows[..MAX_OBSERVED_CONSUMER_GROUPS] else rows
  }

  lemma NothingTallied(rows: seq<GroupRow>, q: Inputs)
    ensures Tallied(Tally({}, {}, {}, {}, {}, {}, {}, 0, 0), rows, 0, q)
  {
  }

  lemma TalliedMeans(t: Tally, rows: seq<GroupRow>, k: nat, q: Inputs)
    requires k <= |rows| && Tallied(t, rows, k, q)
    ensures Collects(t.observed, rows, k, Anyone()) && Collects(t.unexpected, rows, k, IsUnexpected(q))
    ensures Collects(t.stale, rows, k, IsStale(q)) && Collects(t.xdelBlocked, rows, k, BlocksXdel(q))
    ensures Collects(t.retentionBlocked, rows, k, BlocksRetention(q))
    ensures Collects(t.unavailable, rows, k, IsUnavailable(q)) && Collects(t.oversized, rows, k, IsOversized(q))
    ensures t.invalidNames == k - |t.observed| && t.staleEntries == StaleConsumers(rows, k, q)
  {
    hide Collects, StaleConsumers;
  }

  method EvaluateGovernance(rows: seq<GroupRow>, q: Inputs) returns (r: Result<Report, string>)
    ensures r.Err? <==> q.staleAfter == 0
    ensures r.Ok? ==>
              var seen := Inspected(rows);
              && Collects(r.value.observed, seen, |seen|, Anyone())
              && Collects(r.value.unexpected, seen, |seen|, IsUnexpected(q))
              && Collects(r.value.stale, seen, |seen|, IsStale(q))
              && Collects(r.value.xdelBlocked, seen, |seen|, BlocksXdel(q))
              && Collects(r.value.retentionBlocked, seen, |seen|, BlocksRetention(q))
              && Collects(r.value.unavailable, seen, |seen|, IsUnavailable(q))
              && Collects(r.value.oversized, seen, |seen|, IsOversized(q))
              && r.value.staleEntries == StaleConsumers(seen, |seen|, q)
              && (r.value.consumerInventoryAlert <==> r.value.staleEntries > 0 || r.value.oversized != {})
              && r.value.missing == q.expected - r.value.observed
              && r.value.invalidNames == |seen| - |r.value.observed|
              && (r.value.available <==>
                    |rows| <= MAX_OBSERVED_CONSUMER_GROUPS && |r.value.observed| == |rows| && r.value.unavailable == {})
              && (r.value.retentionAlert <==>
                    |rows| > MAX_OBSERVED_CONSUMER_GROUPS || |r.value.observed| < |seen|
                    || r.value.unexpected != {} || r.value.retentionBlocked != {})
  {
    hide Tallied, Collects, StaleConsumers;
    if q.staleAfter == 0 {
      return Err("consumer_group_stale_window_invalid");
    }
    var tooLarge := |rows| > MAX_OBSERVED_CONSUMER_GROUPS;
    var seen := Inspected(rows);
    var t := Tally({}, {}, {}, {}, {}, {}, {}, 0, 0);
    NothingTallied(seen, q);
    for k := 0 to |seen|
      invariant Tallied(t, seen, k, q)
    {
      t := InspectRow(t, seen, k, q);
    }
    TalliedMeans(t, seen, |seen|, q);
    r := Ok(Report(
      !(tooLarge || t.invalidNames > 0 || t.unavailable != {}),
      tooLarge || t.invalidNames > 0 || t.unexpected != {} || t.retentionBlocked != {},
      t.staleEntries > 0 || t.oversized != {},
      t.observed, q.expected - t.observed, t.unexpected, t.stale, t.xdelBlocked, t.retentionBlocked,
      t.unavailable, t.oversized, t.invalidNames, t.staleEntries));
  }

  // ----- What a report says about the stream -----

  /** The rows list the stream's groups once each, and every figure they give is true. */
  ghost predicate Faithful(s: Stream, rows: seq<GroupRow>, streamLength: Option<nat>) {
    && 1 <= |s.groups| <= MAX_SAFE_TERMINAL_CONSUMER_GROUPS && |rows| <= MAX_OBSERVED_CONSUMER_GROUPS
    && (forall name | name in s.groups :: exists i: nat :: i < |rows| && rows[i].name == name)
    && (forall i, j | 0 <= i < j < |rows| :: rows[i].name != rows[j].name)
    && (forall i | 0 <= i < |rows| :: rows[i].name in s.groups && TrueRow(s, rows[i]))
    && (streamLength.Some? ==> streamLength.value == |s.entries|)
  }

  ghost predicate TrueRow(s: Stream, row: GroupRow)
    requires row.name in s.groups
  {
    && NormalizedName(row.name) == Some(row.name)
    && (row.pending.Some? ==> row.pending.value == |s.groups[row.name].pending|)
    && FaithfulLag(s, row.name, NonNegative(row.lag))
  }

  ghost predicate ReportsBlocked(blocked: set<string>, rows: seq<GroupRow>, q: Inputs) {
    Collects(blocked, Inspected(rows), |Inspected(rows)|, BlocksXdel(q))
  }

  lemma FaithfulRowIsFirst(s: Stream, rows: seq<GroupRow>, q: Inputs, blocked: set<string>, i: nat)
    requires Faithful(s, rows, q.streamLength) && ReportsBlocked(blocked, rows, q) && i < |rows|
    ensures rows[i].name in blocked <==> XdelBlocked(rows[i], q.streamLength)
  {
    hide FaithfulLag, NormalizedName, XdelBlocked;
    assert Inspected(rows) == rows;
    var name := rows[i].name;
    assert FirstNamed(rows, i, name) by {
      forall j | 0 <= j < i
        ensures NormalizedName(rows[j].name) != Some(name)
      {
        assert TrueRow(s, rows[j]);
      }
    }
    if name in blocked {
      var j: nat :| j < |rows| && FirstNamed(rows, j, name) && BlocksXdel(q)(rows[j], name);
      assert j == i;
    }
  }

  lemma MemberMeansNonEmpty(ids: set<Id>, id: Id)
    ensures id in ids ==> |ids| > 0
  {
  }

  lemma UnblockedRowConfirms(s: Stream, row: GroupRow, streamLength: Option<nat>, id: Id)
    requires row.name in s.groups && TrueRow(s, row) && id in s.entries
    requires streamLength.Some? ==> streamLength.value == |s.entries|
    requires !XdelBlocked(row, streamLength)
    ensures GroupConfirms(s.groups[row.name], id)
  {
    var g := s.groups[row.name];
    MemberMeansNonEmpty(g.pending.Keys, id);
    MemberMeansNonEmpty(s.entries.Keys, id);
    MemberMeansNonEmpty(Undelivered(s, g), id);
  }

  /** A faithful report with no blocked group means every present entry may be deleted. */
  lemma CleanReportConfirmsEverything(s: Stream, rows: seq<GroupRow>, q: Inputs, blocked: set<string>)
    requires Faithful(s, rows, q.streamLength) && ReportsBlocked(blocked, rows, q)
    requires blocked == {}
    ensures forall id | id in s.entries :: AllGroupsConfirm(s, id)
  {
    forall id, name | id in s.entries && name in s.groups
      ensures GroupConfirms(s.groups[name], id)
    {
      var i: nat :| i < |rows| && rows[i].name == name;
      FaithfulRowIsFirst(s, rows, q, blocked, i);
      UnblockedRowConfirms(s, rows[i], q.streamLength, id);
    }
  }

  /** A known positive lag is a real obstacle: some present entry is not confirmed by that group. */
  lemma PositiveLagMeansUnconfirmed(s: Stream, row: GroupRow) returns (id: Id)
    requires row.name in s.groups && TrueRow(s, row)
    requires NonNegative(row.lag).Some? && NonNegative(row.lag).value > 0
    ensures id in s.entries && !GroupConfirms(s.groups[row.name], id) && !AllGroupsConfirm(s, id)
  {
    var late := Undelivered(s, s.groups[row.name]);
    assert late != {};
    id :| id in late;
  }

  lemma PositivePendingMeansUnconfirmed(s: Stream, row: GroupRow) returns (id: Id)
    requires row.name in s.groups && TrueRow(s, row)
    requires s.groups[row.name].pending.Keys <= s.entries.Keys
    requires row.pending.Some? && row.pending.value > 0
    ensures id in s.entries && !GroupConfirms(s.groups[row.name], id) && !AllGroupsConfirm(s, id)
  {
    var held := s.groups[row.name].pending.Keys;
    assert held != {};
    id :| id in held;
  }

  lemma BlockedRowMeansUnconfirmed(s: Stream, row: GroupRow, streamLength: Option<nat>) returns (id: Id)
    requires row.name in s.groups && TrueRow(s, row) && XdelBlocked(row, streamLength)
    requires row.pending.Some? && NonNegative(row.lag).Some?
    requires s.groups[row.name].pending.Keys <= s.entries.Keys
    ensures id in s.entries && !AllGroupsConfirm(s, id)
  {
    if row.pending.value > 0 {
      id := PositivePendingMeansUnconfirmed(s, row);
    } else {
      id := PositiveLagMeansUnconfirmed(s, row);
    }
  }

  /** With every figure known, the report is exact: no group is blocked just when every entry is confirmed. */
  lemma KnownReportIsExact(s: Stream, rows: seq<GroupRow>, q: Inputs, blocked: set<string>)
    requires Faithful(s, rows, q.streamLength) && ReportsBlocked(blocked, rows, q)
    requires forall i | 0 <= i < |rows| :: rows[i].pending.Some? && NonNegative(rows[i].lag).Some?
    requires forall name | name in s.groups :: s.groups[name].pending.Keys <= s.entries.Keys
    ensures blocked == {} <==> forall id | id in s.entries :: AllGroupsConfirm(s, id)
  {
    if blocked == {} {
      CleanReportConfirmsEverything(s, rows, q, blocked);
    } else {
      var name :| name in blocked;
      assert Inspected(rows) == rows;
      var i: nat :| i < |rows| && FirstNamed(rows, i, name) && BlocksXdel(q)(rows[i], name);
      assert TrueRow(s, rows[i]);
      var id := BlockedRowMeansUnconfirmed(s, rows[i], q.streamLength);
    }
  }
}
