/**
 * component/redis.go: the earliest revision of the registry, in which every activity
 * owns its own store client. Errors are ad-hoc messages; `RemoveActivity` deletes an
 * activity whatever its worker state; `Start` connects first when there is no client.
 * A call through a nil client is a nil-pointer panic, here `NilClient`.
 */
module EarlyRegistry {
  import opened Results
  import opened Errors
  import opened Ints
  import KeyValue
  import Admission
  import Registry

  const IdExisted: Error := Message("activity id existed")
  const IdNotExist: Error := Message("activity id not exist")
  const NotExist: Error := Message("activity not exist")
  const AlreadyStarted: Error := Message("there is already a worker started")
  const AlreadyStopped: Error := Message("the worker has already been stopped")
  const InvalidConnection: Error := Message("invalid redis connection")

  /**
   * `NewRedisConnection`: a nil connection is refused; otherwise a client for it is made.
   * Creating the client does no I/O, so the connection itself stands for that client.
   */
  function NewRedisConnection(conn: Option<KeyValue.Store>): (r: Result<KeyValue.Store, Error>)
    ensures conn.None? <==> r == Failure(InvalidConnection)
    ensures conn.Some? ==> r == Success(conn.value)
  {
    if conn.None? then Failure(InvalidConnection) else Success(conn.value)
  }

  class Activity {
    const id: nat
    /** The connected client, standing for the store it talks to. */
    var client: Option<KeyValue.Store>
    var contextCancelFunc: Option<Registry.CancelFunc>

    constructor (id: nat)
      ensures this.id == id && client == None && contextCancelFunc == None
    {
      this.id := id;
      client := None;
      contextCancelFunc := None;
    }

    /**
     * `conn` is what `GlobalEnv.GetRedisConnection` returns for server 0, `None` for nil.
     * A nil connection gives "invalid redis connection" with the client unchanged.
     */
    method Connect(conn: Option<KeyValue.Store>) returns (err: Option<Error>)
      modifies this`client
      ensures conn.None? ==> err == Some(InvalidConnection) && client == old(client)
      ensures conn.Some? ==> err == None && client == conn
    {
      var made := NewRedisConnection(conn);
      if made.Failure? {
        return Some(made.error);
      }
      client := Some(made.value);
      err := None;
    }

    /** `closed` is the outcome of closing the connection; closing with no client panics. */
    method Close(closed: Option<Error>) returns (err: Option<Error>)
      modifies this`client
      ensures old(client).None? ==> err == Some(NilClient) && client == None
      ensures old(client).Some? && closed.Some? ==> err == closed && client == old(client)
      ensures old(client).Some? && closed.None? ==> err == None && client == None
    {
      if client.None? {
        return Some(NilClient);
      }
      if closed.Some? {
        return closed;
      }
      client := None;
      err := None;
    }

    /**
     * Connects when there is no client (a nil connection gives "invalid redis connection"
     * with nothing changed),
     * then starts a worker unless one is running. A connection made on the way stays.
     */
    method Start(ctx: Registry.Context, conn: Option<KeyValue.Store>) returns (err: Option<Error>)
      modifies this`client, this`contextCancelFunc
      ensures old(client).None? && conn.None? ==>
        err == Some(InvalidConnection) && client == None && contextCancelFunc == old(contextCancelFunc)
      ensures !(old(client).None? && conn.None?) ==>
        && client == (if old(client).None? then conn else old(client))
        && (old(contextCancelFunc).Some? ==> err == Some(AlreadyStarted) && contextCancelFunc == old(contextCancelFunc))
        && (old(contextCancelFunc).None? ==> err == None && contextCancelFunc == Some(Registry.CancelFunc(ctx)))
    {
      if client.None? {
        err := Connect(conn);
        if err.Some? {
          return err;
        }
      }
      if contextCancelFunc.Some? {
        return Some(AlreadyStarted);
      }
      contextCancelFunc := Some(Registry.CancelFunc(ctx));
      err := None;
    }

    method Stop() returns (err: Option<Error>)
      modifies this`contextCancelFunc
      ensures old(contextCancelFunc).None? ==> err == Some(AlreadyStopped) && contextCancelFunc == None
      ensures old(contextCancelFunc).Some? ==> err == None && contextCancelFunc == None
    {
      var cancelFunc := contextCancelFunc;
      if cancelFunc.None? {
        return Some(AlreadyStopped);
      }
      contextCancelFunc := None;
      err := None;
    }

    /** The pop of component/activity.go, through this activity's own client. */
    method PopApplicationsFromQueue(batch: uint8) returns (r: Result<seq<string>, Error>)
      modifies if client.Some? then {client.value} else {}
      ensures client == old(client)
      ensures client.None? ==> r == Failure(NilClient)
      ensures client.Some? ==> var s := client.value;
        && (LLEN in s.failing ==> r == Failure(StoreFailure(LLEN)) && s.queue == old(s.queue))
        && (LLEN !in s.failing ==> r.Success? && r.value + s.queue == old(s.queue))
        && (LLEN !in s.failing && LPOP !in s.failing ==> r.value == old(s.queue)[..KeyValue.Min(|old(s.queue)|, batch)])
        && (LPOP in s.failing ==> s.queue == old(s.queue))
        && (LLEN !in s.failing && LPOP in s.failing ==> r == Success([]))
        && s.applicants == old(s.applicants) && s.seats == old(s.seats)
    {
      if client.None? {
        return Failure(NilClient);
      }
      r := Registry.PopApplicationsFromQueue(client.value, batch);
    }

    /**
     * The push of component/activity.go, through this activity's own client. With no
     * client, empty tokens are skipped before any call and the first other token panics.
     */
    method PushApplicationsIntoSeatQueue(applications: seq<string>, world: Admission.World)
      returns (r: Result<nat, Error>)
      modifies if client.Some? then {client.value} else {}
      ensures client == old(client)
      ensures client.None? ==>
        r == (if exists i | 0 <= i < |applications| :: applications[i] != "" then Failure(NilClient) else Success(0))
      ensures client.Some? ==> var s := client.value;
        var a := Admission.Seated(old(s.seats), s.applicants, s.failing, applications, world);
        && r == Success(a.count) && s.seats == a.seats
        && s.applicants == old(s.applicants) && s.queue == old(s.queue)
    {
      if client.None? {
        for i := 0 to |applications|
          invariant forall k | 0 <= k < i :: applications[k] == ""
        {
          if applications[i] != "" {
            return Failure(NilClient);
          }
        }
        return Success(0);
      }
      var count := Registry.PushApplicationsIntoSeatQueue(client.value, applications, world);
      r := Success(count);
    }
  }

  class ActivityPool {
    var activities: map<nat, Activity>

    /** Every activity is registered under its own id. */
    ghost predicate Valid()
      reads this
    {
      forall k | k in activities :: activities[k].id == k
    }

    constructor ()
      ensures Valid() && activities == map[]
    {
      activities := map[];
    }

    function Capacity(): (n: nat)
      reads this
      ensures n == |activities|
    {
      |activities|
    }

    function ActivityExists(id: nat): (r: bool)
      reads this
      ensures r <==> id in activities
    {
      id in activities
    }

    function GetActivity(id: nat): (r: Result<Activity, Error>)
      reads this
      ensures id !in activities ==> r == Failure(IdNotExist)
      ensures id in activities ==> r == Success(activities[id])
      ensures Valid() && r.Success? ==> r.value.id == id
    {
      if id in activities then Success(activities[id]) else Failure(IdNotExist)
    }

    /** Registers a new activity with no client and no worker. */
    method New(id: nat) returns (err: Option<Error>)
      requires Valid()
      modifies this
      ensures Valid()
      ensures old(id in activities) ==> err == Some(IdExisted) && activities == old(activities)
      ensures old(id !in activities) ==>
        && err == None
        && activities.Keys == old(activities.Keys) + {id}
        && (forall k | k in old(activities) :: activities[k] == old(activities[k]))
        && fresh(activities[id]) && activities[id].id == id
        && activities[id].client == None && activities[id].contextCancelFunc == None
    {
      if id in activities {
        return Some(IdExisted);
      }
      var a := new Activity(id);
      activities := activities[id := a];
      err := None;
    }

    /** Unregisters an activity without looking at its worker, which is left running. */
    method RemoveActivity(id: nat) returns (err: Option<Error>)
      requires Valid()
      modifies this
      ensures Valid()
      ensures old(id !in activities) ==> err == Some(NotExist) && activities == old(activities)
      ensures old(id in activities) ==> err == None && activities == old(activities) - {id}
    {
      if !ActivityExists(id) {
        return Some(NotExist);
      }
      activities := activities - {id};
      err := None;
    }
  }

  /**
   * A working activity: this revision removes it, component/activity.go refuses unless
   * asked to stop it first.
   */
  method RemoveWhileWorking(id: nat, ctx: Registry.Context, store: KeyValue.Store)
    returns (early: Option<Error>, current: Option<Error>)
    ensures early == None && current == Some(WorkerIsWorking)
  {
    var earlyPool := new ActivityPool();
    var _ := earlyPool.New(id);
    var a := earlyPool.GetActivity(id).value;
    var _ := a.Start(ctx, Some(store));
    early := earlyPool.RemoveActivity(id);

    var pool := new Registry.ActivityPool();
    var _ := pool.New(id);
    var b := pool.GetActivity(id).value;
    var _ := b.Start(ctx);
    current := pool.Remove(id, false);
  }
}
