/**
 * The instance identity coordinator: at start-up it sweeps the dead instances of its own
 * autoscaling group and rack out of the shared directory, then registers itself; afterwards it
 * answers "who am I", "who is in the cluster" and "may I be master".
 *
 * The directory and the cloud membership service are collaborators. The directory is an
 * object holding its records in order (`InstanceFactory`); the membership service is the set
 * of instance ids it reports alive in this node's rack.
 */
module Identity {
  import opened Wrappers
  import opened Strings
  import Retry

  /** A directory record. `token` is Java's nullable String, `updateTime` its long. */
  datatype Instance = Instance(
    app: string,
    id: string,
    instanceId: string,
    hostName: string,
    hostIP: string,
    availabilityZone: string,
    dc: string,
    asg: string,
    token: Option<string>,
    updateTime: Retry.Int64)

  /** The node's configuration, read-only for the life of the process. */
  datatype Config = Config(
    appName: string,
    dc: string,
    instanceId: string,
    hostName: string,
    hostIP: string,
    rac: string,
    asgName: string,
    tribeNode: bool,
    tribeClusters: seq<string>,
    asgDedicated: bool,
    debug: bool)

  /** A tribe node must name at least one cluster. */
  predicate ConfigOk(config: Config)
  {
    config.tribeNode ==> |config.tribeClusters| > 0
  }

  // ---------------------------------------------------------------- listing

  /** The directory's listing for one cluster name: its records with that `app`, in stored order. */
  function AppRecords(records: seq<Instance>, name: string): (r: seq<Instance>)
    ensures forall x :: x in r <==> x in records && x.app == name
  {
    if records == [] then []
    else (if records[0].app == name then [records[0]] else []) + AppRecords(records[1..], name)
  }

  /** The listings of several clusters, one after the other, duplicates kept. */
  function TribeListing(records: seq<Instance>, names: seq<string>): (r: seq<Instance>)
    ensures forall x :: x in r <==> x in records && x.app in names
  {
    if names == [] then [] else AppRecords(records, names[0]) + TribeListing(records, names[1..])
  }

  /** What `getInstanceList` returns for a directory holding `records`. */
  function Listing(config: Config, records: seq<Instance>): (r: seq<Instance>)
    ensures forall x :: x in r <==> x in records && Listed(config, x)
  {
    if config.tribeNode then TribeListing(records, config.tribeClusters)
    else AppRecords(records, config.appName)
  }

  /** The clusters whose records the node lists. */
  predicate Listed(config: Config, x: Instance)
  {
    if config.tribeNode then x.app in config.tribeClusters else x.app == config.appName
  }

  /** Listing the clusters of `a` and then those of `b` is listing `a + b`. */
  lemma {:induction false} TribeListingAppend(records: seq<Instance>, a: seq<string>, b: seq<string>)
    ensures TribeListing(records, a + b) == TribeListing(records, a) + TribeListing(records, b)
  {
    if a == [] {
      assert a + b == b;
    } else {
      assert (a + b)[1..] == a[1..] + b;
      TribeListingAppend(records, a[1..], b);
    }
  }

  /** A cluster named twice is listed twice: the tribe listing does not deduplicate. */
  lemma TribeListingKeepsDuplicates(records: seq<Instance>, names: seq<string>)
    ensures TribeListing(records, names + names) == TribeListing(records, names) + TribeListing(records, names)
  {
    TribeListingAppend(records, names, names);
  }

  // ---------------------------------------------------------------- sweep

  predicate InOwnAsgAndRack(config: Config, x: Instance)
  {
    x.asg == config.asgName && x.availabilityZone == config.rac
  }

  /** A record of this node's autoscaling group and rack whose instance is not alive. */
  predicate Dead(config: Config, live: set<string>, x: Instance)
  {
    InOwnAsgAndRack(config, x) && x.instanceId !in live
  }

  /** The records the sweep deletes: listed and dead. */
  predicate Doomed(config: Config, live: set<string>, x: Instance)
  {
    Listed(config, x) && Dead(config, live, x)
  }

  /** The records of a listing that the sweep deletes, in listing order. */
  function DeadIn(config: Config, live: set<string>, listing: seq<Instance>): (r: seq<Instance>)
    ensures forall x :: x in r <==> x in listing && Dead(config, live, x)
  {
    if listing == [] then []
    else
      DeadIn(config, live, listing[..|listing| - 1])
      + (if Dead(config, live, listing[|listing| - 1]) then [listing[|listing| - 1]] else [])
  }

  /** The directory after the sweep: every doomed record gone, the others kept in order. */
  function Swept(config: Config, live: set<string>, records: seq<Instance>): (r: seq<Instance>)
    ensures |r| <= |records|
    ensures forall k :: 0 <= k < |r| ==> !Doomed(config, live, r[k])
  {
    if records == [] then []
    else (if Doomed(config, live, records[0]) then [] else [records[0]]) + Swept(config, live, records[1..])
  }

  /** The records of `s` that are not in `d`, in order. */
  function KeepNotIn(s: seq<Instance>, d: seq<Instance>): (r: seq<Instance>)
  {
    if s == [] then [] else (if s[0] in d then [] else [s[0]]) + KeepNotIn(s[1..], d)
  }

  lemma {:induction false} KeepNotInNothing(s: seq<Instance>)
    ensures KeepNotIn(s, []) == s
  {
    if s != [] {
      KeepNotInNothing(s[1..]);
      assert s == [s[0]] + s[1..];
    }
  }

  lemma {:induction false} KeepNotInExtend(s: seq<Instance>, d: seq<Instance>, x: Instance)
    ensures KeepNotIn(KeepNotIn(s, d), [x]) == KeepNotIn(s, d + [x])
  {
    if s != [] {
      KeepNotInExtend(s[1..], d, x);
      var head := if s[0] in d then [] else [s[0]];
      assert KeepNotIn(s, d) == head + KeepNotIn(s[1..], d);
      if head != [] {
        assert (head + KeepNotIn(s[1..], d))[1..] == KeepNotIn(s[1..], d);
      } else {
        assert head + KeepNotIn(s[1..], d) == KeepNotIn(s[1..], d);
      }
    }
  }

  lemma {:induction false} KeepNotInIsSwept(config: Config, live: set<string>, s: seq<Instance>, d: seq<Instance>)
    requires forall x :: x in s ==> (x in d <==> Doomed(config, live, x))
    ensures KeepNotIn(s, d) == Swept(config, live, s)
  {
    if s != [] {
      KeepNotInIsSwept(config, live, s[1..], d);
    }
  }

  /** Scanning one more listed record: it is appended to the deletions exactly when it is dead. */
  lemma DeadInStep(config: Config, live: set<string>, listing: seq<Instance>, i: nat)
    requires i < |listing|
    ensures DeadIn(config, live, listing[..i + 1])
         == DeadIn(config, live, listing[..i]) + (if Dead(config, live, listing[i]) then [listing[i]] else [])
  {
    assert listing[..i + 1][..i] == listing[..i];
  }

  /** Deleting the dead records of the listing, one call each, leaves the swept directory. */
  lemma DeletingDeadListedIsSweep(config: Config, live: set<string>, records: seq<Instance>)
    ensures KeepNotIn(records, DeadIn(config, live, Listing(config, records))) == Swept(config, live, records)
  {
    var dead := DeadIn(config, live, Listing(config, records));
    forall x | x in records
      ensures x in dead <==> Doomed(config, live, x)
    {
    }
    KeepNotInIsSwept(config, live, records, dead);
  }

  /**
   * Exactly the doomed records are deleted: each other record keeps its multiplicity, each
   * doomed one is gone.
   */
  lemma {:induction false} SweepDeletesExactlyDoomed(config: Config, live: set<string>, records: seq<Instance>, x: Instance)
    ensures multiset(Swept(config, live, records))[x]
         == if Doomed(config, live, x) then 0 else multiset(records)[x]
  {
    if records != [] {
      SweepDeletesExactlyDoomed(config, live, records[1..], x);
      assert records == [records[0]] + records[1..];
    }
  }

  /** Records of other autoscaling groups or racks, in order. */
  function OutsideOwnAsgOrRack(config: Config, records: seq<Instance>): seq<Instance>
  {
    if records == [] then []
    else (if InOwnAsgAndRack(config, records[0]) then [] else [records[0]]) + OutsideOwnAsgOrRack(config, records[1..])
  }

  /** The sweep never touches a record of another autoscaling group or rack, nor their order. */
  lemma {:induction false} SweepKeepsOtherAsgsAndRacks(config: Config, live: set<string>, records: seq<Instance>)
    ensures OutsideOwnAsgOrRack(config, Swept(config, live, records)) == OutsideOwnAsgOrRack(config, records)
  {
    if records != [] {
      var head := if Doomed(config, live, records[0]) then [] else [records[0]];
      var rest := Swept(config, live, records[1..]);
      SweepKeepsOtherAsgsAndRacks(config, live, records[1..]);
      if head == [] {
        assert head + rest == rest;
      } else {
        assert (head + rest)[0] == records[0] && (head + rest)[1..] == rest;
      }
    }
  }

  /** When every listed instance of the group and rack is alive, the sweep deletes nothing. */
  lemma {:induction false} SweepWithoutChurnDeletesNothing(config: Config, live: set<string>, records: seq<Instance>)
    requires forall x :: x in records && Listed(config, x) && InOwnAsgAndRack(config, x) ==> x.instanceId in live
    ensures Swept(config, live, records) == records
    ensures DeadIn(config, live, Listing(config, records)) == []
  {
    if records != [] {
      SweepWithoutChurnDeletesNothing(config, live, records[1..]);
      assert records == [records[0]] + records[1..];
    }
    NothingDeadInListing(config, live, Listing(config, records));
  }

  lemma {:induction false} NothingDeadInListing(config: Config, live: set<string>, listing: seq<Instance>)
    requires forall x :: x in listing ==> !Dead(config, live, x)
    ensures DeadIn(config, live, listing) == []
  {
    if listing != [] {
      NothingDeadInListing(config, live, listing[..|listing| - 1]);
    }
  }

  // ---------------------------------------------------------------- registration

  /** The directory key of a node: its data centre, a dot, its instance id. */
  function MemberId(config: Config): string
  {
    config.dc + "." + config.instanceId
  }

  /** The record `registerInstance` asks the directory to create. */
  function SelfRecord(config: Config, createdAt: Retry.Int64): Instance
  {
    Instance(config.appName, MemberId(config), config.instanceId, config.hostName, config.hostIP,
             config.rac, config.dc, config.asgName, None, createdAt)
  }

  /**
   * The record a node registers lies in the scope of any sweep run with the same configuration:
   * such a sweep deletes it exactly when its instance is not reported alive.
   */
  lemma SelfRecordSweptIffNotAlive(config: Config, live: set<string>, createdAt: Retry.Int64)
    requires !config.tribeNode || config.appName in config.tribeClusters
    ensures Doomed(config, live, SelfRecord(config, createdAt)) <==> config.instanceId !in live
  {
  }

  // ---------------------------------------------------------------- collaborators and coordinator

  /** A solver hint: associativity of `+`, used to keep the delete log invariant cheap to prove. */
  lemma AppendAssoc(a: seq<Instance>, b: seq<Instance>, c: seq<Instance>)
    ensures (a + b) + c == a + (b + c)
  {
  }

  /** Without(s, d): `s` with every record equal to `d` removed. */
  function Without(s: seq<Instance>, d: Instance): seq<Instance>
  {
    KeepNotIn(s, [d])
  }

  /** The shared directory: its records, in the order it lists them. */
  class InstanceFactory {
    var records: seq<Instance>
    /** The arguments of the `delete` calls made so far, in call order. */
    ghost var deletes: seq<Instance>

    constructor (records: seq<Instance>)
      ensures this.records == records && deletes == []
    {
      this.records := records;
      deletes := [];
    }

    /** `getAllIds(name)`. */
    function GetAllIds(name: string): seq<Instance>
      reads this
    {
      AppRecords(records, name)
    }

    /** `delete(d)`: the record keyed like `d` leaves the directory. */
    method Delete(d: Instance)
      modifies this
      ensures records == Without(old(records), d)
      ensures deletes == old(deletes) + [d]
    {
      records := Without(records, d);
      deletes := deletes + [d];
    }

    /** `create(...)`: the new record joins the directory and is returned. */
    method Create(app: string, id: string, instanceId: string, hostName: string, hostIP: string,
                  rack: string, dc: string, asg: string, token: Option<string>, updateTime: Retry.Int64)
      returns (x: Instance)
      modifies this
      ensures x == Instance(app, id, instanceId, hostName, hostIP, rack, dc, asg, token, updateTime)
      ensures records == old(records) + [x]
      ensures deletes == old(deletes)
    {
      x := Instance(app, id, instanceId, hostName, hostIP, rack, dc, asg, token, updateTime);
      records := records + [x];
    }
  }

  class InstanceManager {
    const factory: InstanceFactory
    const config: Config
    /** This node's own record; `None` (Java's null) until `Init` has registered it. */
    var myInstance: Option<Instance>

    /** The field assignments of the source's constructor; `Init` is the rest of it. */
    constructor (factory: InstanceFactory, config: Config)
      ensures this.factory == factory && this.config == config && myInstance == None
    {
      this.factory := factory;
      this.config := config;
      myInstance := None;
    }

    /**
     * The start-up protocol: the sweep, then the registration, each retried with the default
     * policy. `sweepAttempts` and `registerAttempts` say how each attempt's calls to the
     * directory and the membership service end; `live` is what the membership service reports
     * on the attempt that gets through; `createdAt` is the directory's clock at registration.
     * An `Err` is the exception that makes construction fail.
     */
    method Init(live: set<string>, sweepAttempts: nat -> Retry.Outcome<()>,
                registerAttempts: nat -> Retry.Outcome<()>, createdAt: Retry.Int64)
      returns (r: Result<Instance, Retry.Thrown>)
      requires ConfigOk(config)
      modifies this, factory
      ensures
        var sweep := Retry.Run(Retry.DefaultNumberOfRetries, Retry.DefaultWaitTime, sweepAttempts, 0, 0).result;
        var register := Retry.Run(Retry.DefaultNumberOfRetries, Retry.DefaultWaitTime, registerAttempts, 0, 0).result;
        var me := SelfRecord(config, createdAt);
        var dead := DeadIn(config, live, Listing(config, old(factory.records)));
        && (sweep.Threw? ==>
              && r == Err(sweep.error)
              && factory.records == old(factory.records) && factory.deletes == old(factory.deletes)
              && myInstance == old(myInstance))
        && (sweep.Returned? && register.Threw? ==>
              && r == Err(register.error)
              && factory.records == Swept(config, live, old(factory.records))
              && factory.deletes == old(factory.deletes) + dead
              && myInstance == old(myInstance))
        && (sweep.Returned? && register.Returned? ==>
              && r == Ok(me)
              && factory.records == Swept(config, live, old(factory.records)) + [me]
              && factory.deletes == old(factory.deletes) + dead
              && myInstance == Some(me))
    {
      var deregister := new Retry.RetriableCallable<()>();
      var swept, _ := deregister.Call(sweepAttempts);
      if swept.Threw? {
        return Err(swept.error);
      }
      var _ := DeregisterInstance(live);
      var register := new Retry.RetriableCallable<()>();
      var registered, _ := register.Call(registerAttempts);
      if registered.Threw? {
        return Err(registered.error);
      }
      var me := RegisterInstance(createdAt);
      myInstance := Some(me);
      r := Ok(me);
    }

    /** `registerInstance`: asks the directory to create this node's record. */
    method RegisterInstance(createdAt: Retry.Int64) returns (x: Instance)
      modifies factory
      ensures x == SelfRecord(config, createdAt)
      ensures factory.records == old(factory.records) + [x]
      ensures factory.deletes == old(factory.deletes)
    {
      x := factory.Create(config.appName, config.dc + "." + config.instanceId, config.instanceId,
                          config.hostName, config.hostIP, config.rac, config.dc, config.asgName, None, createdAt);
    }

    /**
     * `deregisterInstance`: deletes, in listing order, each listed record of this node's
     * autoscaling group and rack whose instance is not alive. Returns the deleted records.
     */
    method DeregisterInstance(live: set<string>) returns (deleted: seq<Instance>)
      requires ConfigOk(config)
      modifies factory
      ensures deleted == DeadIn(config, live, Listing(config, old(factory.records)))
      ensures factory.deletes == old(factory.deletes) + deleted
      ensures factory.records == Swept(config, live, old(factory.records))
    {
      var allInstances := GetInstanceList();
      ghost var start := factory.records;
      ghost var log := factory.deletes;
      deleted := [];
      KeepNotInNothing(start);
      for i := 0 to |allInstances|
        invariant deleted == DeadIn(config, live, allInstances[..i])
        invariant factory.records == KeepNotIn(start, deleted)
        invariant factory.deletes == log + deleted
      {
        var dead := allInstances[i];
        DeadInStep(config, live, allInstances, i);
        if dead.asg != config.asgName || dead.availabilityZone != config.rac || dead.instanceId in live {
          continue;
        }
        factory.Delete(dead);
        KeepNotInExtend(start, deleted, dead);
        AppendAssoc(log, deleted, [dead]);
        deleted := deleted + [dead];
      }
      assert allInstances[..|allInstances|] == allInstances;
      DeletingDeadListedIsSweep(config, live, start);
    }

    /** `getInstance`: the cached record, never re-read from the directory. */
    method GetInstance() returns (x: Option<Instance>)
      ensures x == myInstance
    {
      x := myInstance;
    }

    /** `getAllInstances`. */
    method GetAllInstances() returns (xs: seq<Instance>)
      requires ConfigOk(config)
      ensures xs == Listing(config, factory.records)
    {
      xs := GetInstanceList();
    }

    /** `getInstanceList`: one directory listing per tribe cluster, concatenated, or the app's own. */
    method GetInstanceList() returns (xs: seq<Instance>)
      requires ConfigOk(config)
      ensures xs == Listing(config, factory.records)
    {
      if config.tribeNode {
        var clusters := config.tribeClusters;
        xs := [];
        for i := 0 to |clusters|
          invariant xs == TribeListing(factory.records, clusters[..i])
        {
          var part := factory.GetAllIds(clusters[i]);
          TribeListingAppend(factory.records, clusters[..i], [clusters[i]]);
          assert clusters[..i + 1] == clusters[..i] + [clusters[i]];
          assert TribeListing(factory.records, [clusters[i]]) == part + TribeListing(factory.records, []);
          xs := xs + part;
        }
        assert clusters[..|clusters|] == clusters;
      } else {
        xs := factory.GetAllIds(config.appName);
      }
    }

    /**
     * `isMaster`: every node may be master unless the deployment dedicates autoscaling groups
     * to roles; then only a node whose group name, lower-cased, contains "master".
     */
    function IsMaster(): (b: bool)
      ensures b <==> !config.asgDedicated || exists i :: OccursAt(ToLower(config.asgName), "master", i)
    {
      !config.asgDedicated || Contains(ToLower(config.asgName), "master")
    }
  }
}
