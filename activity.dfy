/**
 * component/activity.go: the activity registry, the two-state worker lifecycle of an
 * activity, the store key names and the admission operations of this revision. Every
 * operation is taken as atomic, so the registry and per-activity locks are not modelled.
 */
module Registry {
  import opened Results
  import opened Errors
  import opened Ints
  import Format
  import Environment
  import KeyValue
  import Admission

  /** The context a worker is started under (`context.Context`), left opaque. */
  type Context = nat

  /** The cancel function `context.WithCancel` hands out, remembering its parent context. */
  datatype CancelFunc = CancelFunc(parent: Context)

  // ---- key names

  /** `key` is `prefix` followed by the decimal digits of `id`, without leading zeros. */
  predicate IsKeyName(prefix: string, id: nat, key: string) {
    && |key| > |prefix| && key[..|prefix|] == prefix
    && (forall i | |prefix| <= i < |key| :: Format.IsDigit(key[i]))
    && (key[|prefix|] == '0' ==> |key| == |prefix| + 1)
    && Format.ParseDecimal(key[|prefix|..]) == id
  }

  /** `fmt.Sprintf("%s%d", prefix, id)` */
  function KeyName(prefix: string, id: nat): (r: string)
    ensures IsKeyName(prefix, id, r)
  {
    var r := prefix + Format.Decimal(id);
    assert r[|prefix|..] == Format.Decimal(id);
    assert r[|prefix|] == Format.Decimal(id)[0];
    Format.ParseDecimalOfDecimal(id);
    r
  }

  /** For one prefix, distinct activities get distinct key names. */
  lemma KeyNameInjective(prefix: string, id1: nat, id2: nat)
    requires KeyName(prefix, id1) == KeyName(prefix, id2)
    ensures id1 == id2
  {
    var r := KeyName(prefix, id1);
    assert r[|prefix|..] == KeyName(prefix, id2)[|prefix|..];
  }

  /** With the default prefixes the three keys of any two activities never collide. */
  lemma DefaultKeyNamesDisjoint(id1: nat, id2: nat)
    ensures var p := Environment.DefaultKeyPrefix;
      && KeyName(p.application, id1) != KeyName(p.applicant, id2)
      && KeyName(p.application, id1) != KeyName(p.seat, id2)
      && KeyName(p.applicant, id1) != KeyName(p.seat, id2)
  {
    var p := Environment.DefaultKeyPrefix;
    var app, appl, seat := KeyName(p.application, id1), KeyName(p.applicant, id2), KeyName(p.seat, id2);
    var appl1, seat1 := KeyName(p.applicant, id1), KeyName(p.seat, id2);
    // "activity_applica|t|ion_" against "activity_applica|n|t_", "activity_|a|pplication_" against "activity_|s|eat_"
    assert app[..|p.application|][16] == 't' && appl[..|p.applicant|][16] == 'n';
    assert app[..|p.application|][9] == 'a' && seat[..|p.seat|][9] == 's';
    assert appl1[..|p.applicant|][9] == 'a' && seat1[..|p.seat|][9] == 's';
  }

  class Activity {
    const id: nat
    var contextCancelFunc: Option<CancelFunc>

    constructor (id: nat)
      ensures this.id == id && contextCancelFunc == None
    {
      this.id := id;
      contextCancelFunc := None;
    }

    function GetRedisServerApplicationKeyName(prefix: Environment.KeyPrefix): (r: string)
      ensures IsKeyName(prefix.application, id, r)
    {
      KeyName(prefix.application, id)
    }

    function GetRedisServerApplicantKeyName(prefix: Environment.KeyPrefix): (r: string)
      ensures IsKeyName(prefix.applicant, id, r)
    {
      KeyName(prefix.applicant, id)
    }

    function GetRedisServerSeatKeyName(prefix: Environment.KeyPrefix): (r: string)
      ensures IsKeyName(prefix.seat, id, r)
    {
      KeyName(prefix.seat, id)
    }

    /** Working means holding a cancel function. */
    function IsWorking(): (r: bool)
      reads this
      ensures r <==> contextCancelFunc.Some?
    {
      contextCancelFunc.Some?
    }

    /** Starts a worker unless one is running (spawning the worker goroutine is not modelled). */
    method Start(ctx: Context) returns (err: Option<Error>)
      modifies this
      ensures old(IsWorking()) ==> err == Some(WorkerIsWorking) && contextCancelFunc == old(contextCancelFunc)
      ensures !old(IsWorking()) ==> err == None && contextCancelFunc == Some(CancelFunc(ctx))
    {
      if contextCancelFunc.Some? {
        return Some(WorkerIsWorking);
      }
      contextCancelFunc := Some(CancelFunc(ctx));
      err := None;
    }

    /** Cancels the running worker and clears the handle. */
    method Stop() returns (err: Option<Error>)
      modifies this
      ensures old(IsWorking()) ==> err == None
      ensures !old(IsWorking()) ==> err == Some(WorkerHasBeenStopped)
      ensures !IsWorking()
    {
      if contextCancelFunc.None? {
        return Some(WorkerHasBeenStopped);
      }
      contextCancelFunc := None;
      err := None;
    }
  }

  /** HEXISTS on a non-empty token; an error reply reads as false. */
  function ApplicationExists(store: KeyValue.Store, application: string): (r: bool)
    reads store
    ensures r <==> application != "" && HEXISTS !in store.failing && application in store.applicants
  {
    if |application| == 0 then false
    else
      var result := store.HExists(application);
      if result.Success? then result.value else false
  }

  /** HGET of the token's applicant; any error (including a missing field) reads as "". */
  function GetApplicant(store: KeyValue.Store, application: string): (r: string)
    reads store
    ensures HGET !in store.failing && application in store.applicants ==> r == store.applicants[application]
    ensures HGET in store.failing || application !in store.applicants ==> r == ""
  {
    var result := store.HGet(application);
    if result.Success? then result.value else ""
  }

  /** ZCOUNT over the whole score range; an error reads as 0. */
  function GetSeatCount(store: KeyValue.Store): (r: nat)
    reads store
    ensures ZCOUNT !in store.failing ==> r == |store.seats|
    ensures ZCOUNT in store.failing ==> r == 0
  {
    var result := store.ZCount();
    if result.Success? then result.value else 0
  }

  // ---- admission (the activity a source method is bound to only chooses the three keys,
  //      and a `KeyValue.Store` already is the store of one activity)

  /**
   * LLEN, then LPOP of `min(len, batch)` entries; a failing LLEN panics (a `Failure`),
   * an empty queue yields no entries, a failing LPOP yields none and removes none.
   */
  method PopApplicationsFromQueue(store: KeyValue.Store, batch: uint8) returns (r: Result<seq<string>, Error>)
    modifies store`queue
    ensures LLEN in store.failing ==> r == Failure(StoreFailure(LLEN)) && store.queue == old(store.queue)
    ensures LLEN !in store.failing ==> r.Success? && r.value + store.queue == old(store.queue)
    ensures LLEN !in store.failing && LPOP !in store.failing ==>
      r.value == old(store.queue)[..KeyValue.Min(|old(store.queue)|, batch)]
    ensures LPOP in store.failing ==> store.queue == old(store.queue)
    ensures LLEN !in store.failing && LPOP in store.failing ==> r == Success([])
    ensures LLEN !in store.failing && old(store.queue) == [] ==> r == Success([]) && store.queue == []
  {
    var length := store.LLen();
    if length.Failure? {
      return Failure(length.error);
    }
    if length.value == 0 {
      return Success([]);
    }
    var n := KeyValue.Min(length.value, batch);
    var values := store.LPopCount(n);
    r := Success(if values.Success? then values.value else []);
  }

  /**
   * The loop of the push: each token that `ApplicationExists` accepts has its applicant
   * ZADDed NX with the clock reading of the token's turn; a reply error is skipped.
   */
  method SeatTokens(store: KeyValue.Store, applications: seq<string>, world: Admission.World)
    returns (count: nat)
    modifies store`seats
    ensures var a := Admission.Seated(old(store.seats), store.applicants, store.failing, applications, world);
      store.seats == a.seats && count == a.count
  {
    count := 0;
    for i := 0 to |applications|
      invariant var a := Admission.Seated(old(store.seats), store.applicants, store.failing, applications[..i], world);
        store.seats == a.seats && count == a.count
    {
      var value := applications[i];
      assert applications[..i + 1][..i] == applications[..i];
      if !ApplicationExists(store, value) {
        continue;
      }
      var tm := world(i).now;
      var result := store.ZAddNX(GetApplicant(store, value), tm, world(i).zaddError);
      if result.Success? {
        count := count + result.value;
      }
    }
    assert applications[..|applications|] == applications;
  }

  /** Seats the applicants of the given tokens; the result counts only members newly added. */
  method PushApplicationsIntoSeatQueue(store: KeyValue.Store, applications: seq<string>, world: Admission.World)
    returns (count: nat)
    modifies store`seats
    ensures var a := Admission.Seated(old(store.seats), store.applicants, store.failing, applications, world);
      store.seats == a.seats && count == a.count
    ensures applications == [] ==> count == 0 && store.seats == old(store.seats)
    ensures count <= |applications| && |store.seats| == |old(store.seats)| + count
    ensures forall m | m in old(store.seats) :: m in store.seats && store.seats[m] == old(store.seats)[m]
    ensures store.seats.Keys == old(store.seats.Keys) + Admission.Answered(store.applicants, store.failing, applications, world)
    ensures (forall i | 0 <= i < |applications| :: !Admission.ZAddRefused(store.failing, world(i))) ==>
      store.seats.Keys == old(store.seats.Keys) + Admission.Candidates(store.applicants, store.failing, applications)
    ensures store.applicants == old(store.applicants) && store.queue == old(store.queue)
  {
    Admission.SeatedGrowsByCount(store.seats, store.applicants, store.failing, applications, world);
    Admission.SeatedKeepsScores(store.seats, store.applicants, store.failing, applications, world);
    Admission.SeatedMembers(store.seats, store.applicants, store.failing, applications, world);
    if |applications| == 0 {
      return 0;
    }
    count := SeatTokens(store, applications, world);
  }

  class ActivityPool {
    var activities: map<nat, Activity>

    /** Every activity is registered under its own id (so distinct ids hold distinct objects). */
    ghost predicate Valid()
      reads this, activities.Values
    {
      forall k | k in activities :: activities[k].id == k
    }

    /** The working flag of every registered activity. */
    ghost function Workings(): map<nat, bool>
      reads this, activities.Values
    {
      map k | k in activities :: activities[k].IsWorking()
    }

    /** `InitActivityPool` */
    constructor ()
      ensures Valid() && activities == map[]
    {
      activities := map[];
    }

    function Capacity(): (n: nat)
      reads this
      ensures n == |activities|
    {
      |activities|
    }

    function ActivityExists(id: nat): (r: bool)
      reads this
      ensures r <==> id in activities
    {
      id in activities
    }

    function GetActivity(id: nat): (r: Result<Activity, Error>)
      reads this
      ensures id !in activities ==> r == Failure(ActivityNotExist)
      ensures id in activities ==> r == Success(activities[id])
    {
      if id in activities then Success(activities[id]) else Failure(ActivityNotExist)
    }

    /** Registers a new idle activity under a fresh id. */
    method New(id: nat) returns (err: Option<Error>)
      requires Valid()
      modifies this
      ensures Valid()
      ensures old(id in activities) ==> err == Some(ActivityExisted) && activities == old(activities)
      ensures old(id !in activities) ==>
        && err == None
        && id in activities && activities == old(activities)[id := activities[id]]
        && fresh(activities[id]) && activities[id].id == id && !activities[id].IsWorking()
        && Workings() == old(Workings())[id := false]
        && Capacity() == old(Capacity()) + 1
      ensures GetActivity(id).Success?
    {
      if id in activities {
        return Some(ActivityExisted);
      }
      var a := new Activity(id);
      activities := activities[id := a];
      err := None;
    }

    /**
     * Unregisters an activity. A working one is kept unless `stopBeforeRemoving`,
     * in which case it is stopped first. No other entry changes.
     */
    method Remove(id: nat, stopBeforeRemoving: bool) returns (err: Option<Error>)
      requires Valid()
      modifies this, if id in activities then {activities[id]} else {}
      ensures Valid()
      ensures old(id !in activities) ==>
        err == Some(ActivityNotExist) && activities == old(activities) && Workings() == old(Workings())
      ensures old(id in activities && activities[id].IsWorking()) && !stopBeforeRemoving ==>
        err == Some(WorkerIsWorking) && activities == old(activities) && Workings() == old(Workings())
      ensures old(id in activities && activities[id].IsWorking()) && !stopBeforeRemoving ==> unchanged(activities[id])
      ensures old(id in activities && (!activities[id].IsWorking() || stopBeforeRemoving)) ==>
        && err == None
        && activities == old(activities) - {id}
        && !old(activities[id]).IsWorking()
        && Workings() == old(Workings()) - {id}
        && GetActivity(id) == Failure(ActivityNotExist)
    {
      if id !in activities {
        return Some(ActivityNotExist);
      }
      var activity := activities[id];
      if activity.IsWorking() {
        if !stopBeforeRemoving {
          return Some(WorkerIsWorking);
        }
        // Stop cannot fail here: the activity was just seen working.
        var _ := activity.Stop();
      }
      activities := activities - {id};
      err := None;
      assert forall k | k in activities :: activities[k] != activity;
    }

    /** A snapshot of the working flag of every registered activity, keyed by activity id. */
    method Status() returns (workings: map<nat, bool>)
      requires Valid()
      ensures workings.Keys == activities.Keys
      ensures forall k | k in workings :: workings[k] == activities[k].IsWorking()
    {
      workings := map[];
      var rest := activities.Keys;
      while rest != {}
        invariant rest <= activities.Keys
        invariant workings.Keys == activities.Keys - rest
        invariant forall k | k in workings :: workings[k] == activities[k].IsWorking()
        decreases rest
      {
        var k :| k in rest;
        var v := activities[k];
        workings := workings[v.id := v.contextCancelFunc != None];
        rest := rest - {k};
      }
    }
  }

  /** Create, start, then stop twice (component/worker_test.go): the second stop reports that the worker has already been stopped. */
  method StopTwice(id: nat, ctx: Context) returns (first: Option<Error>, second: Option<Error>)
    ensures first == None && second == Some(WorkerHasBeenStopped)
  {
    var pool := new ActivityPool();
    var _ := pool.New(id);
    var activity := pool.GetActivity(id).value;
    var _ := activity.Start(ctx);
    first := activity.Stop();
    second := activity.Stop();
  }

  /** Registering an activity and removing it at once leaves the registry as it was. */
  method NewThenRemove(pool: ActivityPool, id: nat) returns (added: Option<Error>, removed: Option<Error>)
    requires pool.Valid() && id !in pool.activities
    modifies pool
    ensures added == None && removed == None
    ensures pool.Valid() && pool.activities == old(pool.activities)
  {
    added := pool.New(id);
    ghost var grown := pool.activities;
    removed := pool.Remove(id, false);
    assert pool.activities == grown - {id} == old(pool.activities);
  }

  /** Two starts in a row: the second reports that the worker is working. */
  method StartTwice(id: nat, ctx: Context) returns (first: Option<Error>, second: Option<Error>)
    ensures first == None && second == Some(WorkerIsWorking)
  {
    var activity := new Activity(id);
    first := activity.Start(ctx);
    second := activity.Start(ctx);
  }
}
