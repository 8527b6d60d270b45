/**
 * The three store keys of one activity, abstracted from Redis: the application
 * list (a FIFO queue of tokens), the applicant hash (token -> applicant) and the
 * seat sorted set (member -> score). `failing` names the commands that answer every
 * call with a reply error against this store (an unavailable shard fails all of them).
 */
module KeyValue {
  import opened Results
  import opened Errors

  function Min(a: nat, b: nat): (m: nat)
    ensures m <= a && m <= b && (m == a || m == b)
  {
    if a < b then a else b
  }

  class Store {
    var queue: seq<string>
    var applicants: map<string, string>
    var seats: map<string, int>
    const failing: set<Command>

    constructor (queue: seq<string>, applicants: map<string, string>, seats: map<string, int>, failing: set<Command>)
      ensures this.queue == queue && this.applicants == applicants && this.seats == seats
      ensures this.failing == failing
    {
      this.queue := queue;
      this.applicants := applicants;
      this.seats := seats;
      this.failing := failing;
    }

    /** LLEN */
    function LLen(): Result<nat, Error>
      reads this
    {
      if LLEN in failing then Failure(StoreFailure(LLEN)) else Success(|queue|)
    }

    /** LPOP key count: removes and returns up to `count` entries from the head. */
    method LPopCount(count: nat) returns (r: Result<seq<string>, Error>)
      modifies this`queue
      ensures LPOP in failing ==> r == Failure(StoreFailure(LPOP)) && queue == old(queue)
      ensures LPOP !in failing ==>
        var n := Min(count, |old(queue)|);
        r == Success(old(queue)[..n]) && queue == old(queue)[n..]
    {
      if LPOP in failing {
        return Failure(StoreFailure(LPOP));
      }
      var n := Min(count, |queue|);
      r := Success(queue[..n]);
      queue := queue[n..];
    }

    /** HEXISTS on the applicant hash. */
    function HExists(field: string): Result<bool, Error>
      reads this
    {
      if HEXISTS in failing then Failure(StoreFailure(HEXISTS)) else Success(field in applicants)
    }

    /** HGET on the applicant hash; a missing field is the `redis.Nil` reply. */
    function HGet(field: string): Result<string, Error>
      reads this
    {
      if HGET in failing then Failure(StoreFailure(HGET))
      else if field !in applicants then Failure(NilReply)
      else Success(applicants[field])
    }

    /**
     * ZADD NX on the seat set: adds `member` with `score` unless present; replies 1 if added,
     * 0 if not. `replyError` says whether the server answers this one call with a reply error
     * (an intermittent failure, as opposed to a command in `failing`, which always errs).
     */
    method ZAddNX(member: string, score: int, replyError: bool) returns (r: Result<nat, Error>)
      modifies this`seats
      ensures ZADD in failing || replyError ==> r == Failure(StoreFailure(ZADD)) && seats == old(seats)
      ensures !(ZADD in failing || replyError) && member in old(seats) ==> r == Success(0) && seats == old(seats)
      ensures !(ZADD in failing || replyError) && member !in old(seats) ==>
        r == Success(1) && seats == old(seats)[member := score]
    {
      if ZADD in failing || replyError {
        return Failure(StoreFailure(ZADD));
      }
      if member in seats {
        return Success(0);
      }
      seats := seats[member := score];
      r := Success(1);
    }

    /** ZCOUNT key -inf +inf: the number of seat members. */
    function ZCount(): Result<nat, Error>
      reads this
    {
      if ZCOUNT in failing then Failure(StoreFailure(ZCOUNT)) else Success(|seats|)
    }
  }
}
