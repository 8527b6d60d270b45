/**
 * component/env.go: the configuration record, the weighted round-robin turn map
 * over the configured Redis servers (with its process-wide cache and counter) and
 * the connection options of one server.
 */
module Environment {
  import opened Ints
  import opened Results
  import opened Errors
  import Format

  datatype EnvRedisServer = EnvRedisServer(host: string, port: uint16, username: string, password: string,
                                           db: int, weight: uint8)

  datatype KeyPrefix = KeyPrefix(application: string, applicant: string, seat: string)

  datatype EnvActivity = EnvActivity(keyPrefix: KeyPrefix, batch: uint8)

  datatype Env = Env(listenPort: uint16, redisServers: seq<EnvRedisServer>, activity: EnvActivity)

  /** The key prefixes of the `default:` struct tags. */
  const DefaultKeyPrefix := KeyPrefix("activity_application_", "activity_applicant_", "activity_seat_")

  /** The options a client for one server is created with (the dialer is not modelled). */
  datatype Options = Options(addr: string, username: string, password: string, db: int)

  function GetRedisConnectionCount(env: Env): (n: nat)
    ensures n == |env.redisServers|
  {
    |env.redisServers|
  }

  /** `EnvRedisServer.GetRedisOptions`: the address is the host, a colon, then the decimal port. */
  function ServerOptions(e: EnvRedisServer): (o: Options)
    ensures |o.addr| > |e.host| && o.addr[..|e.host|] == e.host && o.addr[|e.host|] == ':'
    ensures var port := o.addr[|e.host| + 1..];
      && |port| > 0 && (forall i | 0 <= i < |port| :: Format.IsDigit(port[i]))
      && (port[0] == '0' ==> |port| == 1)
      && Format.ParseDecimal(port) == e.port
    ensures o.username == e.username && o.password == e.password && o.db == e.db
  {
    var addr := e.host + ":" + Format.Decimal(e.port);
    assert addr[|e.host| + 1..] == Format.Decimal(e.port);
    Format.ParseDecimalOfDecimal(e.port);
    Options(addr, e.username, e.password, e.db)
  }

  /** The configured weights, server by server. */
  function Weights(servers: seq<EnvRedisServer>): (w: seq<uint8>)
    ensures |w| == |servers| && forall i | 0 <= i < |w| :: w[i] == servers[i].weight
  {
    seq(|servers|, i requires 0 <= i < |servers| => servers[i].weight)
  }

  method GetRedisServerTurns(env: Env) returns (turns: seq<uint8>)
    ensures |turns| == |env.redisServers|
    ensures forall i | 0 <= i < |turns| :: turns[i] == env.redisServers[i].weight
  {
    var servers := env.redisServers;
    var a := new uint8[|servers|];
    for i := 0 to |servers|
      invariant forall k | 0 <= k < i :: a[k] == servers[k].weight
    {
      a[i] := servers[i].weight;
    }
    turns := a[..];
  }

  function Sum(w: seq<uint8>): nat {
    if w == [] then 0 else Sum(w[..|w| - 1]) + w[|w| - 1]
  }

  /** The turn entry of server `i`: Go's `uint8(i)`, which wraps from the 257th server on. */
  function Turn(i: nat): uint8 {
    i % 256
  }

  function Repeat(x: uint8, n: nat): (r: seq<uint8>)
    ensures |r| == n && forall k | 0 <= k < n :: r[k] == x
  {
    if n == 0 then [] else Repeat(x, n - 1) + [x]
  }

  /** Server `i` repeated `weight[i]` times, servers in order. */
  function TurnMap(weights: seq<uint8>): seq<uint8> {
    if weights == [] then []
    else
      var n := |weights| - 1;
      TurnMap(weights[..n]) + Repeat(Turn(n), weights[n])
  }

  /** The number of occurrences of `x` in `s`. */
  function Count(s: seq<uint8>, x: int): nat {
    if s == [] then 0 else Count(s[..|s| - 1], x) + (if s[|s| - 1] == x then 1 else 0)
  }

  lemma {:induction false} CountAppend(a: seq<uint8>, b: seq<uint8>, x: int)
    ensures Count(a + b, x) == Count(a, x) + Count(b, x)
    decreases |b|
  {
    if b == [] {
      assert a + b == a;
    } else {
      var n := |b| - 1;
      CountAppend(a, b[..n], x);
      assert (a + b)[..|a + b| - 1] == a + b[..n];
    }
  }

  lemma {:induction false} CountRepeat(x: uint8, n: nat, y: int)
    ensures Count(Repeat(x, n), y) == if y == x then n else 0
    decreases n
  {
    if n > 0 {
      CountRepeat(x, n - 1, y);
      assert Repeat(x, n)[..n - 1] == Repeat(x, n - 1);
    }
  }

  /** The turn map is as long as the sum of the weights. */
  lemma {:induction false} TurnMapLength(weights: seq<uint8>)
    ensures |TurnMap(weights)| == Sum(weights)
    decreases |weights|
  {
    if weights != [] {
      TurnMapLength(weights[..|weights| - 1]);
    }
  }

  /** Every entry names a configured server, however many there are (`uint8(i)` only shrinks `i`). */
  lemma {:induction false} TurnMapInRange(weights: seq<uint8>)
    ensures forall k | 0 <= k < |TurnMap(weights)| :: TurnMap(weights)[k] < |weights|
    decreases |weights|
  {
    if weights != [] {
      var n := |weights| - 1;
      TurnMapInRange(weights[..n]);
      var p := TurnMap(weights[..n]);
      var m := TurnMap(weights);
      assert Turn(n) <= n by {
        if n >= 256 {
          assert Turn(n) < 256;
        }
      }
      assert forall k | |p| <= k < |m| :: m[k] == Turn(n);
      assert forall k | 0 <= k < |p| :: m[k] == p[k];
    }
  }

  /** With at most 256 servers the entries are non-decreasing: each server's turns form one block, in server order. */
  lemma {:induction false} TurnMapOrdered(weights: seq<uint8>)
    requires |weights| <= 256
    ensures forall j, k | 0 <= j <= k < |TurnMap(weights)| :: TurnMap(weights)[j] <= TurnMap(weights)[k]
    decreases |weights|
  {
    if weights != [] {
      var n := |weights| - 1;
      TurnMapOrdered(weights[..n]);
      TurnMapInRange(weights[..n]);
      var p := TurnMap(weights[..n]);
      var m := TurnMap(weights);
      assert forall k | |p| <= k < |m| :: m[k] == n;
      assert forall k | 0 <= k < |p| :: m[k] == p[k];
    }
  }

  /** With at most 256 servers, server `i` occurs exactly `weights[i]` times, so a server of weight 0 never does. */
  lemma {:induction false} TurnMapCounts(weights: seq<uint8>)
    requires |weights| <= 256
    ensures forall i | 0 <= i < |weights| :: Count(TurnMap(weights), i) == weights[i]
    decreases |weights|
  {
    if weights != [] {
      var n := |weights| - 1;
      TurnMapCounts(weights[..n]);
      forall i | 0 <= i < |weights| ensures Count(TurnMap(weights), i) == weights[i] {
        TurnMapCountStep(weights, i);
      }
    }
  }

  /** One step of `TurnMapCounts`: the last server's block adds its weight to its own count only. */
  lemma TurnMapCountStep(weights: seq<uint8>, i: nat)
    requires 0 < |weights| <= 256 && i < |weights|
    requires var p := weights[..|weights| - 1];
      forall k | 0 <= k < |p| :: Count(TurnMap(p), k) == p[k]
    ensures Count(TurnMap(weights), i) == weights[i]
  {
    var n := |weights| - 1;
    var p := weights[..n];
    assert TurnMap(weights) == TurnMap(p) + Repeat(Turn(n), weights[n]);
    assert Turn(n) == n;
    CountAppend(TurnMap(p), Repeat(Turn(n), weights[n]), i);
    CountRepeat(Turn(n), weights[n], i);
    if i == n {
      TurnMapInRange(p);
      CountAbsent(TurnMap(p), i);
    } else {
      assert p[i] == weights[i];
    }
  }

  lemma {:induction false} CountAbsent(s: seq<uint8>, x: int)
    requires forall k | 0 <= k < |s| :: s[k] < x
    ensures Count(s, x) == 0
    decreases |s|
  {
    if s != [] {
      CountAbsent(s[..|s| - 1], x);
    }
  }

  /** The selection of one call: the entry after the incremented counter, as Go's `%` and indexing give it. */
  function Selected(turnMap: seq<uint8>, counter: int64): (r: Result<uint8, Error>)
    ensures |turnMap| == 0 ==> r == Failure(DivideByZero)
    ensures |turnMap| > 0 && counter >= 0 ==> r == Success(turnMap[counter % |turnMap|])
    ensures |turnMap| > 0 && counter < 0 && GoRem(counter, |turnMap|) != 0 ==> r == Failure(IndexOutOfRange)
    ensures |turnMap| > 0 && counter < 0 && GoRem(counter, |turnMap|) == 0 ==> r == Success(turnMap[0])
  {
    if |turnMap| == 0 then Failure(DivideByZero)
    else
      var k := GoRem(counter, |turnMap|);
      if k < 0 then Failure(IndexOutOfRange) else Success(turnMap[k])
  }

  /** The servers picked by `n` consecutive calls whose incremented counters are `start`, `start + 1`, ... */
  function Selections(turnMap: seq<uint8>, start: nat, n: nat): (r: seq<uint8>)
    requires |turnMap| > 0
    ensures |r| == n
  {
    if n == 0 then [] else Selections(turnMap, start, n - 1) + [turnMap[(start + n - 1) % |turnMap|]]
  }

  lemma {:induction false} SelectionsAt(turnMap: seq<uint8>, start: nat, n: nat, k: nat)
    requires |turnMap| > 0 && k < n
    ensures Selections(turnMap, start, n)[k] == turnMap[(start + k) % |turnMap|]
    decreases n
  {
    if k < n - 1 {
      SelectionsAt(turnMap, start, n - 1, k);
    }
  }

  /** `len` consecutive picks visit the turn map once around, starting anywhere: a rotation of it. */
  lemma SelectionsRotate(turnMap: seq<uint8>, start: nat)
    requires |turnMap| > 0
    ensures var r := start % |turnMap|;
      Selections(turnMap, start, |turnMap|) == turnMap[r..] + turnMap[..r]
  {
    var len := |turnMap|;
    var r := start % len;
    var rot := turnMap[r..] + turnMap[..r];
    forall k | 0 <= k < len ensures Selections(turnMap, start, len)[k] == rot[k] {
      SelectionsAt(turnMap, start, len, k);
      ModShift(start, k, len);
      if r + k < len {
        ModUnique(r + k, len, 0, r + k);
      } else {
        ModUnique(r + k, len, 1, r + k - len);
      }
    }
  }

  /**
   * While the counter stays below 2^63, `n` consecutive calls from counter value `counter`
   * select what `Selections` lists: the k-th call increments the counter to `counter + 1 + k`
   * (no wrap yet) and `Selected` picks the entry at that value modulo the length.
   */
  lemma SelectedIsSelections(turnMap: seq<uint8>, counter: nat, n: nat)
    requires |turnMap| > 0
    requires counter + n < TWO_63
    ensures forall k {:trigger Selections(turnMap, counter + 1, n)[k]} | 0 <= k < n ::
      Selected(turnMap, Wrap64(counter + 1 + k)) == Success(Selections(turnMap, counter + 1, n)[k])
  {
    forall k: nat {:trigger Selections(turnMap, counter + 1, n)[k]} | k < n
      ensures Selected(turnMap, Wrap64(counter + 1 + k)) == Success(Selections(turnMap, counter + 1, n)[k])
    {
      assert Wrap64(counter + 1 + k) == counter + 1 + k;
      SelectionsAt(turnMap, counter + 1, n, k);
    }
  }

  /**
   * Weighted round robin: over `Sum(weights)` consecutive calls from a non-negative counter,
   * while it stays below 2^63, the calls select what `Selections` lists and server `i` is
   * selected exactly `weights[i]` times.
   */
  lemma RoundRobin(weights: seq<uint8>, counter: nat)
    requires |weights| <= 256
    requires |TurnMap(weights)| > 0
    requires counter + Sum(weights) < TWO_63
    ensures var m := TurnMap(weights);
      forall k {:trigger Selections(m, counter + 1, |m|)[k]} | 0 <= k < |m| :: Selected(m, Wrap64(counter + 1 + k)) == Success(Selections(m, counter + 1, |m|)[k])
    ensures var m := TurnMap(weights);
      forall i | 0 <= i < |weights| :: Count(Selections(m, counter + 1, |m|), i) == weights[i]
  {
    TurnMapLength(weights);
    SelectedIsSelections(TurnMap(weights), counter, |TurnMap(weights)|);
    SelectionCounts(weights, counter);
  }

  /** One walk around the turn map, from any start, visits server `i` exactly `weights[i]` times. */
  lemma SelectionCounts(weights: seq<uint8>, counter: nat)
    requires |weights| <= 256
    requires |TurnMap(weights)| > 0
    ensures var m := TurnMap(weights);
      forall i | 0 <= i < |weights| :: Count(Selections(m, counter + 1, |m|), i) == weights[i]
  {
    var m := TurnMap(weights);
    var r := (counter + 1) % |m|;
    SelectionsRotate(m, counter + 1);
    TurnMapCounts(weights);
    forall i | 0 <= i < |weights| ensures Count(Selections(m, counter + 1, |m|), i) == weights[i] {
      CountAppend(m[r..], m[..r], i);
      CountAppend(m[..r], m[r..], i);
      assert m[..r] + m[r..] == m;
    }
  }

  /** The process-wide globals `redisClientTurnIndex` and `redisClientTurnMap`. */
  class RedisClientTurns {
    var turnIndex: int64
    var turnMap: seq<uint8>

    constructor ()
      ensures turnIndex == 0 && turnMap == []
    {
      turnIndex := 0;
      turnMap := [];
    }

    /** Returns the cached turn map when it is non-empty; otherwise expands the weights and caches the result. */
    method GetRedisClientTurnMap(env: Env) returns (r: seq<uint8>)
      modifies this`turnMap
      ensures |old(turnMap)| > 0 ==> r == old(turnMap) && turnMap == old(turnMap)
      ensures |old(turnMap)| == 0 ==> r == TurnMap(Weights(env.redisServers)) && turnMap == r
    {
      if |turnMap| > 0 {
        return turnMap;
      }
      var turns := GetRedisServerTurns(env);
      assert turns == Weights(env.redisServers);
      var m: seq<uint8> := [];
      for i := 0 to |turns|
        invariant m == TurnMap(turns[..i])
      {
        for j := 0 to turns[i]
          invariant m == TurnMap(turns[..i]) + Repeat(Turn(i), j)
        {
          m := m + [Turn(i)];
        }
        assert turns[..i + 1][..i] == turns[..i];
      }
      assert turns[..|turns|] == turns;
      turnMap := m;
      r := m;
    }

    /**
     * Picks a server: fetches the turn map, increments the counter (wrapping as int64 does),
     * fetches the turn map again for its length, and indexes the first with the counter modulo
     * that length.
     */
    method GetRedisOptions(env: Env) returns (r: Result<Options, Error>)
      modifies this
      ensures turnIndex == Wrap64(old(turnIndex) + 1)
      ensures turnMap == if |old(turnMap)| > 0 then old(turnMap) else TurnMap(Weights(env.redisServers))
      ensures Selected(turnMap, turnIndex).Failure? ==> r == Failure(Selected(turnMap, turnIndex).error)
      ensures Selected(turnMap, turnIndex).Success? ==>
        var s := Selected(turnMap, turnIndex).value;
        r == if s < |env.redisServers| then Success(ServerOptions(env.redisServers[s])) else Failure(IndexOutOfRange)
    {
      var first := GetRedisClientTurnMap(env);
      turnIndex := Wrap64(turnIndex + 1);
      var second := GetRedisClientTurnMap(env);
      if |second| == 0 {
        return Failure(DivideByZero);
      }
      var k := GoRem(turnIndex, |second|);
      if k < 0 {
        return Failure(IndexOutOfRange);
      }
      var s := first[k];
      if s >= |env.redisServers| {
        return Failure(IndexOutOfRange);
      }
      r := Success(ServerOptions(env.redisServers[s]));
    }
  }

  /** With a cache filled from this configuration, a selection always names a configured server. */
  lemma FreshSelectionInRange(env: Env, counter: int64)
    requires Selected(TurnMap(Weights(env.redisServers)), counter).Success?
    ensures Selected(TurnMap(Weights(env.redisServers)), counter).value < GetRedisConnectionCount(env)
  {
    TurnMapInRange(Weights(env.redisServers));
  }
}
