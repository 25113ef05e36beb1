/** `Databases` of src/databases.rs as an object: replace_keyspaces_from run to its end by one thread. */
module DatabaseSets {
  import opened Basics
  import opened KeyspaceReplace

  /** What take_keyspace_payload leaves behind. */
  const DRAINED: Payload := ""

  lemma StageStep(before: Keyspaces, now: Keyspaces, i: nat)
    requires i < |before| && now == seq(i, _ => DRAINED) + before[i..]
    ensures |now| == |before| && before[..i] + [now[i]] == before[..i + 1]
    ensures now[i := DRAINED] == seq(i + 1, _ => DRAINED) + before[i + 1..]
  {
  }

  lemma InstallStep(before: Keyspaces, now: Keyspaces, staged: Keyspaces, i: nat)
    requires i < |before| && i < |staged| && now == staged[..i] + before[i..]
    ensures |now| == |before| && before[..i] + [now[i]] == before[..i + 1]
    ensures now[i := staged[i]] == staged[..i + 1] + before[i + 1..]
  {
  }

  class Databases {
    var dbs: Keyspaces
    var generation: nat
    var loading: bool

    constructor (dbs: Keyspaces)
      ensures this.dbs == dbs && generation == 0 && !loading
    {
      this.dbs, generation, loading := dbs, 0, false;
    }

    /** Drains the first `n` source databases. */
    method StageAll(n: nat) returns (staged: Keyspaces)
      requires n <= |dbs|
      modifies this`dbs
      ensures staged == old(dbs)[..n] && dbs == seq(n, _ => DRAINED) + old(dbs)[n..]
    {
      staged := [];
      for i := 0 to n
        invariant staged == old(dbs)[..i] && dbs == seq(i, _ => DRAINED) + old(dbs)[i..]
      {
        staged := staged + [dbs[i]];
        StageStep(old(dbs), dbs, i);
        dbs := dbs[i := DRAINED];
      }
    }

    /** The rollback guard: reinstalls the retained databases, last first. */
    method RollBack(olds: Keyspaces)
      requires |olds| <= |dbs|
      modifies this`dbs
      ensures dbs == olds + old(dbs)[|olds|..]
    {
      var i := |olds|;
      while i > 0
        invariant 0 <= i <= |olds| && |dbs| == |old(dbs)|
        invariant dbs == old(dbs)[..i] + olds[i..] + old(dbs)[|olds|..]
      {
        i := i - 1;
        dbs := dbs[i := olds[i]];
      }
    }

    /** The install loop, retaining each replaced database; a panic comes after a completed install. */
    method InstallAll(staged: Keyspaces, panicAfter: Option<nat>) returns (olds: Keyspaces, panicked: bool)
      requires |staged| <= |dbs|
      modifies this`dbs
      ensures panicked == (panicAfter.Some? && panicAfter.value < |staged|)
      ensures !panicked ==> |olds| == |staged|
      ensures |olds| <= |staged| && olds == old(dbs)[..|olds|] && dbs == staged[..|olds|] + old(dbs)[|olds|..]
    {
      olds, panicked := [], false;
      for i := 0 to |staged|
        invariant !panicked && |olds| == i && olds == old(dbs)[..i] && dbs == staged[..i] + old(dbs)[i..]
        invariant panicAfter.Some? ==> panicAfter.value >= i
      {
        InstallStep(old(dbs), dbs, staged, i);
        olds := olds + [dbs[i]];
        dbs := dbs[i := staged[i]];
        if panicAfter == Some(i) {
          panicked := true;
          break;
        }
      }
    }

    /** replace_keyspaces_from, panicking after the install of database `panicAfter` if there is one:
        all of the databases both sides have, or none. Replacing a set from itself is the exception:
        what the rollback puts back is then what staging had already drained. */
    method ReplaceKeyspacesFrom(other: Databases, panicAfter: Option<nat>) returns (panicked: bool)
      modifies this, other`dbs
      ensures generation == old(generation) + 1 && !loading
      ensures var n := Min(|old(dbs)|, |old(other.dbs)|);
        && panicked == (panicAfter.Some? && panicAfter.value < n)
        && (!panicked ==> dbs == old(other.dbs)[..n] + old(dbs)[n..])
        && (panicked ==> dbs == if other != this then old(dbs) else seq(n, _ => DRAINED))
        && (other != this ==> other.dbs == seq(n, _ => DRAINED) + old(other.dbs)[n..])
    {
      loading := true;
      var n := Min(|dbs|, |other.dbs|);
      var staged := other.StageAll(n);
      ghost var before := dbs;
      var olds;
      olds, panicked := InstallAll(staged, panicAfter);
      if panicked {
        RollBack(olds);
        assert dbs == before;
      } else {
        assert staged[..n] == staged && before[n..] == old(dbs)[n..];
      }
      generation, loading := generation + 1, false;
    }
  }
}
