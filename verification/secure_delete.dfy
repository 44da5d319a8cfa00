/**
 Deleting one account's browser profile without following symbolic links.
 The file system is a table of inodes; a directory maps names to inodes. Files may have several
 names and links may point anywhere; directories contain no cycle, which rank witnesses.
 */
module SecureDelete {
  import opened Results

  datatype Node = Dir(entries: map<string, nat>) | File(bytes: string) | Link(target: string)

  type Nodes = map<nat, Node>

  type Rank = nat -> nat

  predicate IsDir(nodes: Nodes, x: nat) {
    x in nodes && nodes[x].Dir?
  }

  /** Entries exist, and a directory ranks above the directories in it. */
  ghost predicate FiniteTree(nodes: Nodes, rank: Rank) {
    forall d, name | IsDir(nodes, d) && name in nodes[d].entries ::
      nodes[d].entries[name] in nodes &&
        (IsDir(nodes, nodes[d].entries[name]) ==> rank(nodes[d].entries[name]) < rank(d))
  }

  /** Directory x is d or lies under it. */
  ghost predicate Reaches(nodes: Nodes, rank: Rank, d: nat, x: nat)
    requires FiniteTree(nodes, rank)
    decreases rank(d)
  {
    IsDir(nodes, d) && IsDir(nodes, x) && (x == d || exists name :: ReachesBy(nodes, rank, d, name, x))
  }

  ghost predicate ReachesBy(nodes: Nodes, rank: Rank, d: nat, name: string, x: nat)
    requires FiniteTree(nodes, rank) && IsDir(nodes, d)
    decreases rank(d), 0
  {
    name in nodes[d].entries && IsDir(nodes, nodes[d].entries[name]) && Reaches(nodes, rank, nodes[d].entries[name], x)
  }

  /** The directories at or under d. */
  ghost function Below(nodes: Nodes, rank: Rank, d: nat): set<nat>
    requires FiniteTree(nodes, rank)
  {
    set x | x in nodes && Reaches(nodes, rank, d, x)
  }

  ghost predicate ReachedThrough(nodes: Nodes, rank: Rank, d: nat, names: set<string>, x: nat)
    requires FiniteTree(nodes, rank) && IsDir(nodes, d)
  {
    exists name :: name in names && ReachesBy(nodes, rank, d, name, x)
  }

  /** The directories at or under the entries of d with one of these names. */
  ghost function BelowNames(nodes: Nodes, rank: Rank, d: nat, names: set<string>): set<nat>
    requires FiniteTree(nodes, rank) && IsDir(nodes, d)
  {
    set x | x in nodes && ReachedThrough(nodes, rank, d, names, x)
  }

  /** The table with every directory of the set empty. */
  function Emptied(nodes: Nodes, dirs: set<nat>): Nodes {
    map x | x in nodes :: if x in dirs then Dir(map[]) else nodes[x]
  }

  // ----- Reachability -----

  lemma {:induction false} ReachesLower(nodes: Nodes, rank: Rank, d: nat, x: nat)
    requires FiniteTree(nodes, rank) && Reaches(nodes, rank, d, x)
    ensures x == d || rank(x) < rank(d)
    decreases rank(d)
  {
    if x != d {
      var name :| ReachesBy(nodes, rank, d, name, x);
      ReachesLower(nodes, rank, nodes[d].entries[name], x);
    }
  }

  lemma {:induction false} ReachesChild(nodes: Nodes, rank: Rank, d: nat, x: nat, name: string)
    requires FiniteTree(nodes, rank) && Reaches(nodes, rank, d, x)
    requires name in nodes[x].entries && IsDir(nodes, nodes[x].entries[name])
    ensures Reaches(nodes, rank, d, nodes[x].entries[name])
    decreases rank(d)
  {
    var y := nodes[x].entries[name];
    if x == d {
      assert Reaches(nodes, rank, y, y);
      assert ReachesBy(nodes, rank, d, name, y);
    } else {
      var step :| ReachesBy(nodes, rank, d, step, x);
      ReachesChild(nodes, rank, nodes[d].entries[step], x, name);
      assert ReachesBy(nodes, rank, d, step, y);
    }
  }

  /**
   A table in the middle of emptying d: the directories in gone are empty, d has lost some names,
   and everything else is as it was.
   */
  ghost predicate Partly(before: Nodes, now: Nodes, rank: Rank, d: nat, gone: set<nat>) {
    && FiniteTree(before, rank) && IsDir(before, d) && IsDir(now, d) && d !in gone
    && now.Keys == before.Keys
    && (forall x | x in gone :: IsDir(before, x) && now[x] == Dir(map[]))
    && (forall x | x in before && x !in gone && x != d :: now[x] == before[x])
    && (forall name | name in now[d].entries ::
        name in before[d].entries && now[d].entries[name] == before[d].entries[name])
  }

  /** What lies under a directory that is gone is gone too. */
  ghost predicate DownClosed(nodes: Nodes, gone: set<nat>) {
    forall x, name | x in gone && IsDir(nodes, x) && name in nodes[x].entries && IsDir(nodes, nodes[x].entries[name]) ::
      nodes[x].entries[name] in gone
  }

  lemma PartlyIsTree(before: Nodes, now: Nodes, rank: Rank, d: nat, gone: set<nat>)
    requires Partly(before, now, rank, d, gone)
    ensures FiniteTree(now, rank)
  {
    forall x, name | IsDir(now, x) && name in now[x].entries
      ensures now[x].entries[name] in now && (IsDir(now, now[x].entries[name]) ==> rank(now[x].entries[name]) < rank(x))
    {
      assert IsDir(before, x) && name in before[x].entries;
    }
  }

  /** What can be reached from a lower directory now could be reached before. */
  lemma {:induction false} ReachedBefore(before: Nodes, now: Nodes, rank: Rank, d: nat, gone: set<nat>, c: nat, x: nat)
    requires Partly(before, now, rank, d, gone) && FiniteTree(now, rank) && rank(c) < rank(d)
    requires Reaches(now, rank, c, x)
    ensures Reaches(before, rank, c, x)
    decreases rank(c)
  {
    if x != c {
      var name :| ReachesBy(now, rank, c, name, x);
      ReachedBefore(before, now, rank, d, gone, now[c].entries[name], x);
      assert ReachesBy(before, rank, c, name, x);
    }
  }

  /** What could be reached from a lower directory before is gone or can be reached now. */
  lemma {:induction false} StillReached(before: Nodes, now: Nodes, rank: Rank, d: nat, gone: set<nat>, c: nat, x: nat)
    requires Partly(before, now, rank, d, gone) && DownClosed(before, gone) && FiniteTree(now, rank) &&
      rank(c) < rank(d)
    requires Reaches(before, rank, c, x) && x !in gone
    ensures Reaches(now, rank, c, x)
    decreases rank(c)
  {
    GoneReachesOnlyGone(before, rank, gone, c, x);
    if x != c {
      var name :| ReachesBy(before, rank, c, name, x);
      StillReached(before, now, rank, d, gone, before[c].entries[name], x);
      assert ReachesBy(now, rank, c, name, x);
    }
  }

  lemma {:induction false} GoneReachesOnlyGone(nodes: Nodes, rank: Rank, gone: set<nat>, c: nat, x: nat)
    requires FiniteTree(nodes, rank) && DownClosed(nodes, gone) && Reaches(nodes, rank, c, x) && x !in gone
    ensures c !in gone
    decreases rank(c)
  {
    if x != c {
      var name :| ReachesBy(nodes, rank, c, name, x);
      GoneReachesOnlyGone(nodes, rank, gone, nodes[c].entries[name], x);
    }
  }

  /** Deleting child c as well: everything that was under it is now gone, and nothing else. */
  lemma ChildGone(before: Nodes, now: Nodes, rank: Rank, d: nat, gone: set<nat>, c: nat)
    requires Partly(before, now, rank, d, gone) && DownClosed(before, gone) && FiniteTree(now, rank) &&
      rank(c) < rank(d)
    ensures gone + Below(now, rank, c) == gone + Below(before, rank, c)
    ensures d !in Below(now, rank, c)
  {
    forall x | x in Below(now, rank, c) ensures x in Below(before, rank, c) && x != d {
      ReachedBefore(before, now, rank, d, gone, c, x);
      ReachesLower(before, rank, c, x);
    }
    forall x | x in Below(before, rank, c) && x !in gone ensures x in Below(now, rank, c) {
      StillReached(before, now, rank, d, gone, c, x);
    }
  }

  lemma BelowIsDownClosed(nodes: Nodes, rank: Rank, c: nat)
    requires FiniteTree(nodes, rank)
    ensures DownClosed(nodes, Below(nodes, rank, c))
  {
    forall x, name | x in Below(nodes, rank, c) && name in nodes[x].entries && IsDir(nodes, nodes[x].entries[name])
      ensures nodes[x].entries[name] in Below(nodes, rank, c)
    {
      ReachesChild(nodes, rank, c, x, name);
    }
  }

  /** One more name handled: a directory adds what lies under it, any other entry adds nothing. */
  lemma OneMoreName(nodes: Nodes, rank: Rank, d: nat, names: set<string>, name: string)
    requires FiniteTree(nodes, rank) && IsDir(nodes, d) && name in nodes[d].entries
    ensures BelowNames(nodes, rank, d, names + {name})
         == BelowNames(nodes, rank, d, names) + Below(nodes, rank, nodes[d].entries[name])
  {
    var c := nodes[d].entries[name];
    forall x | x in Below(nodes, rank, c) ensures x in BelowNames(nodes, rank, d, names + {name}) {
      assert ReachesBy(nodes, rank, d, name, x);
    }
  }

  lemma ReachedBySomeName(nodes: Nodes, rank: Rank, d: nat, x: nat)
    requires FiniteTree(nodes, rank) && Reaches(nodes, rank, d, x) && x != d
    ensures x in BelowNames(nodes, rank, d, nodes[d].entries.Keys)
  {
    var name :| ReachesBy(nodes, rank, d, name, x);
  }

  lemma ReachedThroughIsBelow(nodes: Nodes, rank: Rank, d: nat, names: set<string>, x: nat)
    requires FiniteTree(nodes, rank) && IsDir(nodes, d) && ReachedThrough(nodes, rank, d, names, x)
    ensures Reaches(nodes, rank, d, x)
  {
    var name :| name in names && ReachesBy(nodes, rank, d, name, x);
    assert Reaches(nodes, rank, nodes[d].entries[name], x);
  }

  lemma AllNames(nodes: Nodes, rank: Rank, d: nat)
    requires FiniteTree(nodes, rank) && IsDir(nodes, d)
    ensures Below(nodes, rank, d) == {d} + BelowNames(nodes, rank, d, nodes[d].entries.Keys)
  {
    forall x | x in Below(nodes, rank, d) && x != d ensures x in BelowNames(nodes, rank, d, nodes[d].entries.Keys) {
      ReachedBySomeName(nodes, rank, d, x);
    }
    forall x | x in BelowNames(nodes, rank, d, nodes[d].entries.Keys) ensures x in Below(nodes, rank, d) {
      ReachedThroughIsBelow(nodes, rank, d, nodes[d].entries.Keys, x);
    }
    assert Reaches(nodes, rank, d, d);
  }

  // ----- One step of the loop over the names -----

  predicate HasDirectory(nodes: Nodes, d: nat, name: string) {
    IsDir(nodes, d) && name in nodes[d].entries && IsDir(nodes, nodes[d].entries[name])
  }

  /** The name is taken by something that is not a directory: a link, whatever it points to, or a file. */
  predicate Refused(nodes: Nodes, d: nat, name: string) {
    IsDir(nodes, d) && name in nodes[d].entries && !IsDir(nodes, nodes[d].entries[name])
  }

  function WithoutName(nodes: Nodes, d: nat, name: string): Nodes
    requires IsDir(nodes, d)
  {
    nodes[d := Dir(nodes[d].entries - {name})]
  }

  /** Deleting the child c, which has been emptied, keeps the table a partly emptied one. */
  lemma DirectoryStep(before: Nodes, now: Nodes, rank: Rank, d: nat, gone: set<nat>, name: string)
    requires Partly(before, now, rank, d, gone) && DownClosed(before, gone) && FiniteTree(now, rank)
    requires HasDirectory(now, d, name) && name in before[d].entries
    ensures var c := now[d].entries[name];
      var emptied := Emptied(now, Below(now, rank, c));
      && IsDir(emptied, d) && emptied[d] == now[d]
      && c in emptied && emptied[c] == Dir(map[])
      && Partly(before, WithoutName(emptied, d, name), rank, d, gone + Below(now, rank, c))
      && DownClosed(before, gone + Below(now, rank, c))
      && gone + Below(now, rank, c) == gone + Below(before, rank, before[d].entries[name])
  {
    var c := now[d].entries[name];
    ChildGone(before, now, rank, d, gone, c);
    BelowIsDownClosed(before, rank, c);
    assert Reaches(now, rank, c, c);
    assert forall x | x in Below(now, rank, c) :: x in gone + Below(before, rank, c);
  }

  lemma NameStep(before: Nodes, now: Nodes, rank: Rank, d: nat, gone: set<nat>, name: string)
    requires Partly(before, now, rank, d, gone) && Refused(now, d, name)
    ensures Partly(before, WithoutName(now, d, name), rank, d, gone)
    ensures name in before[d].entries && gone + Below(before, rank, before[d].entries[name]) == gone
  {
  }

  // ----- The file system and the deletion -----

  /** The table after the directory called name in d, and everything under it, has been deleted. */
  ghost function Deleted(nodes: Nodes, rank: Rank, d: nat, name: string): Nodes
    requires FiniteTree(nodes, rank) && HasDirectory(nodes, d, name)
  {
    var c := nodes[d].entries[name];
    ReachesOnlyLower(nodes, rank, c);
    WithoutName(Emptied(nodes, Below(nodes, rank, c)), d, name)
  }

  lemma ReachesOnlyLower(nodes: Nodes, rank: Rank, c: nat)
    requires FiniteTree(nodes, rank)
    ensures forall x | x in Below(nodes, rank, c) :: x == c || rank(x) < rank(c)
  {
    forall x | x in Below(nodes, rank, c) ensures x == c || rank(x) < rank(c) {
      ReachesLower(nodes, rank, c, x);
    }
  }

  lemma StartOfEmptying(before: Nodes, rank: Rank, d: nat)
    requires FiniteTree(before, rank) && IsDir(before, d)
    ensures Partly(before, before, rank, d, {}) && DownClosed(before, {}) && BelowNames(before, rank, d, {}) == {}
  {
  }

  lemma EndOfEmptying(before: Nodes, now: Nodes, rank: Rank, d: nat, gone: set<nat>)
    requires Partly(before, now, rank, d, gone) && now[d] == Dir(map[])
    ensures now == Emptied(before, {d} + gone)
  {
  }

  class FileSystem {
    var nodes: Nodes

    /** unlink: removes a name that is not a directory, never touching what it names. */
    method Unlink(d: nat, name: string) returns (done: bool)
      requires IsDir(nodes, d)
      modifies this
      ensures done == Refused(old(nodes), d, name)
      ensures nodes == if done then WithoutName(old(nodes), d, name) else old(nodes)
    {
      done := name in nodes[d].entries && !IsDir(nodes, nodes[d].entries[name]);
      if done {
        nodes := WithoutName(nodes, d, name);
      }
    }

    /** rmdir: removes the name of an empty directory. */
    method Rmdir(d: nat, name: string) returns (done: bool)
      requires IsDir(nodes, d)
      modifies this
      ensures done == (HasDirectory(old(nodes), d, name) && old(nodes)[old(nodes)[d].entries[name]].entries == map[])
      ensures nodes == if done then WithoutName(old(nodes), d, name) else old(nodes)
    {
      done := HasDirectory(nodes, d, name) && nodes[nodes[d].entries[name]].entries == map[];
      if done {
        nodes := WithoutName(nodes, d, name);
      }
    }

    /** Empties directory d: exactly the directories at or under it end up empty. */
    method EmptyDirectory(d: nat, ghost rank: Rank)
      requires FiniteTree(nodes, rank) && IsDir(nodes, d)
      modifies this
      ensures nodes == Emptied(old(nodes), Below(old(nodes), rank, d))
      decreases rank(d)
    {
      hide Partly, DownClosed, BelowNames, Below, Emptied;
      ghost var before := nodes;
      StartOfEmptying(before, rank, d);
      ghost var gone: set<nat> := {};
      var names := nodes[d].entries.Keys;
      assert before[d].entries.Keys - names == {};
      while names != {}
        invariant FiniteTree(before, rank)
        invariant Partly(before, nodes, rank, d, gone) && DownClosed(before, gone)
        invariant IsDir(nodes, d) && IsDir(before, d)
        invariant nodes[d].entries.Keys == names <= before[d].entries.Keys
        invariant gone == BelowNames(before, rank, d, before[d].entries.Keys - names)
        decreases |names|
      {
        var name :| name in names;
        var child := nodes[d].entries[name];
        OneMoreName(before, rank, d, before[d].entries.Keys - names, name);
        assert before[d].entries.Keys - names + {name} == before[d].entries.Keys - (names - {name});
        PartlyIsTree(before, nodes, rank, d, gone);
        if IsDir(nodes, child) {
          DirectoryStep(before, nodes, rank, d, gone, name);
          gone := gone + Below(nodes, rank, child);
          EmptyDirectory(child, rank);
          var removed := Rmdir(d, name);
          assert removed;
        } else {
          NameStep(before, nodes, rank, d, gone, name);
          var removed := Unlink(d, name);
          assert removed;
        }
        names := names - {name};
      }
      AllNames(before, rank, d);
      assert before[d].entries.Keys - {} == before[d].entries.Keys;
      EndOfEmptying(before, nodes, rank, d, gone);
    }

    /**
     Deletes the account directory of a platform under the profiles root. False means it was already
     absent; a link or file at the root, the platform or the account is refused.
     */
    method SecurelyDelete(root: Option<nat>, platform: string, account: string, ghost rank: Rank)
      returns (result: Result<bool, string>)
      requires FiniteTree(nodes, rank) && (root.Some? ==> root.value in nodes)
      modifies this
      ensures result == Ok(true) <==>
        root.Some? && HasDirectory(old(nodes), root.value, platform) &&
        HasDirectory(old(nodes), old(nodes)[root.value].entries[platform], account)
      ensures result.Err? <==>
        root.Some? && (!IsDir(old(nodes), root.value) || Refused(old(nodes), root.value, platform) ||
        (HasDirectory(old(nodes), root.value, platform) &&
         Refused(old(nodes), old(nodes)[root.value].entries[platform], account)))
      ensures result != Ok(true) ==> nodes == old(nodes)
      ensures result == Ok(true) ==>
        nodes == Deleted(old(nodes), rank, old(nodes)[root.value].entries[platform], account)
    {
      if root.None? {
        return Ok(false);
      }
      if !IsDir(nodes, root.value) {
        return Err("account_profile_cleanup_root_unsafe");
      }
      if platform !in nodes[root.value].entries {
        return Ok(false);
      }
      var directory := nodes[root.value].entries[platform];
      if !IsDir(nodes, directory) {
        return Err("account_profile_cleanup_platform_path_unsafe");
      }
      if account !in nodes[directory].entries {
        return Ok(false);
      }
      var target := nodes[directory].entries[account];
      if !IsDir(nodes, target) {
        return Err("account_profile_cleanup_account_path_unsafe");
      }
      ReachesOnlyLower(nodes, rank, target);
      assert Reaches(nodes, rank, target, target);
      EmptyDirectory(target, rank);
      var removed := Rmdir(directory, account);
      assert removed;
      return Ok(true);
    }
  }

  /** Deletion removes the account's name and the names under it, and changes nothing else anywhere. */
  lemma DeletionIsExact(nodes: Nodes, rank: Rank, d: nat, account: string, x: nat, name: string)
    requires FiniteTree(nodes, rank) && HasDirectory(nodes, d, account) && x in nodes
    ensures var after := Deleted(nodes, rank, d, account);
      && after.Keys == nodes.Keys
      && (!IsDir(nodes, x) ==> after[x] == nodes[x])
      && (IsDir(nodes, x) ==>
          && after[x].Dir?
          && (name in after[x].entries <==>
              name in nodes[x].entries && !Reaches(nodes, rank, nodes[d].entries[account], x) &&
                (x, name) != (d, account))
          && (name in after[x].entries ==> after[x].entries[name] == nodes[x].entries[name]))
  {
    ReachesOnlyLower(nodes, rank, nodes[d].entries[account]);
  }

  /** A directory the account directory merely links to, and whatever lies in it, is left alone. */
  lemma {:induction false} LinkedDirectoriesSurvive(nodes: Nodes, rank: Rank, d: nat, account: string, x: nat, y: nat)
    requires FiniteTree(nodes, rank) && HasDirectory(nodes, d, account)
    requires Reaches(nodes, rank, x, y) && !Reaches(nodes, rank, nodes[d].entries[account], y)
    ensures FiniteTree(Deleted(nodes, rank, d, account), rank) && Reaches(Deleted(nodes, rank, d, account), rank, x, y)
    decreases rank(x)
  {
    var c := nodes[d].entries[account];
    var after := Deleted(nodes, rank, d, account);
    ReachesOnlyLower(nodes, rank, c);
    assert FiniteTree(after, rank);
    BelowIsDownClosed(nodes, rank, c);
    if x in Below(nodes, rank, c) {
      GoneReachesOnlyGone(nodes, rank, Below(nodes, rank, c), x, y);
    }
    assert after[y].Dir? && after[x].Dir?;
    if x != y {
      var name :| ReachesBy(nodes, rank, x, name, y);
      LinkedDirectoriesSurvive(nodes, rank, d, account, nodes[x].entries[name], y);
      assert ReachesBy(after, rank, x, name, y);
    }
  }
}
