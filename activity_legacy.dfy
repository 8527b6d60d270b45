/**
 * component/activity_legacy.go: the earlier worker bodies. `processFunc` pops a batch and
 * seats it in two separate steps; the body of `processFunc2`'s WATCH transaction does both
 * inside one function and gives up at the first ZADD error. Its `ApplicationExists`,
 * `GetApplicant`, `GetSeatCount` and `PushApplicationsIntoSeatQueue` are those of
 * component/activity.go up to how the client is obtained and how a ZADD error is logged,
 * and are the `Registry` members of the same names.
 */
module Legacy {
  import opened Results
  import opened Errors
  import opened Ints
  import KeyValue
  import Admission
  import Registry

  /**
   * LLEN, then LPOP of `min(len, batch)` entries, with no shortcut for an empty queue
   * (a count of 0 pops nothing). A failing LLEN panics; a failing LPOP yields nothing.
   */
  method PopApplicationsFromQueue(store: KeyValue.Store, batch: uint8) returns (r: Result<seq<string>, Error>)
    modifies store`queue
    ensures LLEN in store.failing ==> r == Failure(StoreFailure(LLEN)) && store.queue == old(store.queue)
    ensures LLEN !in store.failing ==> r.Success? && r.value + store.queue == old(store.queue)
    ensures LLEN !in store.failing && LPOP !in store.failing ==>
      r.value == old(store.queue)[..KeyValue.Min(|old(store.queue)|, batch)]
    ensures LPOP in store.failing || batch == 0 ==> store.queue == old(store.queue)
    ensures LLEN !in store.failing && LPOP in store.failing ==> r == Success([])
  {
    var length := store.LLen();
    if length.Failure? {
      return Failure(length.error);
    }
    var n := KeyValue.Min(length.value, batch);
    var values := store.LPopCount(n);
    r := Success(if values.Success? then values.value else []);
  }

  /** What one run of a worker body took from the queue and how many seats it filled. */
  datatype Processed = Processed(applications: seq<string>, accepted: nat)

  /**
   * `processFunc`: look the activity up (a missing one panics), pop a batch and, when it is
   * not empty, seat it.
   */
  method ProcessFunc(pool: Registry.ActivityPool, activityID: nat, store: KeyValue.Store, batch: uint8,
                     world: Admission.World) returns (r: Result<Processed, Error>)
    modifies store`queue, store`seats
    ensures activityID !in pool.activities ==>
      r == Failure(ActivityNotExist) && store.queue == old(store.queue) && store.seats == old(store.seats)
    ensures activityID in pool.activities && LLEN in store.failing ==>
      r == Failure(StoreFailure(LLEN)) && store.queue == old(store.queue) && store.seats == old(store.seats)
    ensures activityID in pool.activities && LLEN !in store.failing ==>
      && r.Success?
      && r.value.applications + store.queue == old(store.queue)
      && (LPOP !in store.failing ==>
            r.value.applications == old(store.queue)[..KeyValue.Min(|old(store.queue)|, batch)])
      && var a := Admission.Seated(old(store.seats), store.applicants, store.failing, r.value.applications, world);
         store.seats == a.seats && r.value.accepted == a.count
    ensures activityID in pool.activities && LLEN !in store.failing && LPOP in store.failing ==>
      r == Success(Processed([], 0)) && store.queue == old(store.queue) && store.seats == old(store.seats)
    ensures r.Success? && r.value.applications == [] ==> r.value.accepted == 0 && store.seats == old(store.seats)
    ensures r.Success? ==> r.value.accepted <= |r.value.applications|
  {
    var activity := pool.GetActivity(activityID);
    if activity.Failure? {
      return Failure(activity.error);
    }
    var results := PopApplicationsFromQueue(store, batch);
    if results.Failure? {
      return Failure(results.error);
    }
    var count := 0;
    if |results.value| > 0 {
      count := Registry.PushApplicationsIntoSeatQueue(store, results.value, world);
    }
    r := Success(Processed(results.value, count));
  }

  /**
   * The seating loop of `processFunc2`'s transaction body: HEXISTS only (no empty-token
   * check), HGET through the plain client, and the first ZADD error ends the loop.
   */
  method SeatInTransaction(store: KeyValue.Store, applications: seq<string>, world: Admission.World)
    returns (err: Option<Error>, count: nat)
    modifies store`seats
    ensures var t := Admission.TxSeated(old(store.seats), store.applicants, store.failing, applications, world);
      && store.seats == t.seats && count == t.count
      && err == (if t.aborted then Some(StoreFailure(ZADD)) else None)
  {
    count := 0;
    for i := 0 to |applications|
      invariant var t := Admission.TxSeated(old(store.seats), store.applicants, store.failing, applications[..i], world);
        store.seats == t.seats && count == t.count && !t.aborted
    {
      var application := applications[i];
      assert applications[..i + 1][..i] == applications[..i];
      var found := store.HExists(application);
      if found.Failure? || !found.value {
        continue;
      }
      var applicant := Registry.GetApplicant(store, application);
      var result := store.ZAddNX(applicant, world(i).now, world(i).zaddError);
      if result.Success? {
        count := count + result.value;
      } else {
        Admission.TxAbortIsFinal(old(store.seats), store.applicants, store.failing, applications, i + 1, world);
        return Some(result.error), count;
      }
    }
    assert applications[..|applications|] == applications;
    err := None;
  }

  /**
   * The body of `processFunc2`'s transaction. The commands take effect one by one (there is
   * no MULTI), so a ZADD error returns that error with the queue already popped and the
   * seats of the tokens before it kept (`Admission.TxAbortKeepsEarlierSeats`). The single
   * WATCH call around it, and the logging of its error, are not modelled.
   */
  method Txf(store: KeyValue.Store, batch: uint8, world: Admission.World)
    returns (err: Option<Error>, applications: seq<string>, count: nat)
    modifies store`queue, store`seats
    ensures LLEN in store.failing ==>
      && err == Some(StoreFailure(LLEN)) && applications == [] && count == 0
      && store.queue == old(store.queue) && store.seats == old(store.seats)
    ensures LLEN !in store.failing ==> applications + store.queue == old(store.queue)
    ensures LLEN !in store.failing && LPOP !in store.failing ==>
      applications == old(store.queue)[..KeyValue.Min(|old(store.queue)|, batch)]
    ensures LLEN !in store.failing ==>
      store.seats == Admission.TxSeated(old(store.seats), store.applicants, store.failing, applications, world).seats
    ensures LLEN !in store.failing ==>
      count == Admission.TxSeated(old(store.seats), store.applicants, store.failing, applications, world).count
    ensures LLEN !in store.failing ==>
      err == if Admission.TxSeated(old(store.seats), store.applicants, store.failing, applications, world).aborted
             then Some(StoreFailure(ZADD)) else None
    ensures LLEN !in store.failing && LPOP in store.failing ==>
      applications == [] && count == 0 && err == None
    ensures LLEN !in store.failing && LPOP in store.failing ==>
      store.queue == old(store.queue) && store.seats == old(store.seats)
    ensures count <= |applications|
    ensures forall m | m in old(store.seats) :: m in store.seats && store.seats[m] == old(store.seats)[m]
    ensures store.applicants == old(store.applicants)
  {
    count := 0;
    // the same LLEN and LPOP as the legacy pop, except that an LLEN error is returned
    var popped := PopApplicationsFromQueue(store, batch);
    if popped.Failure? {
      return Some(popped.error), [], count;
    }
    applications := popped.value;
    Admission.TxBounds(store.seats, store.applicants, store.failing, applications, world);
    Admission.TxKeepsScores(store.seats, store.applicants, store.failing, applications, world);
    err := None;
    if |applications| > 0 {
      err, count := SeatInTransaction(store, applications, world);
    }
  }
}
