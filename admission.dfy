/**
 * What one admission step does to the seat set, as functions of the store's
 * values: the reference against which every push loop of the component is proved,
 * and the lemmas that state what an admission step promises.
 */
module Admission {
  import opened Errors

  /**
   * What the turn of the i-th token of one call sees from outside the process: the world
   * reading (microseconds, `time.Now().UnixMicro()`) and whether the server answers that
   * turn's ZADD with a reply error (a dropped connection, a full memory, a wrong key type).
   */
  datatype Observed = Observed(now: int, zaddError: bool)

  type World = nat -> Observed

  /** ZADD errs on a turn when the store fails every ZADD or when this turn's reply is an error. */
  predicate ZAddRefused(failing: set<Command>, o: Observed) {
    ZADD in failing || o.zaddError
  }

  /** A token is admitted by the push path when it is non-empty and HEXISTS answers true. */
  predicate Mapped(applicants: map<string, string>, failing: set<Command>, token: string) {
    token != "" && HEXISTS !in failing && token in applicants
  }

  /** The member HGET yields for a token; the empty string when the lookup fails. */
  function Applicant(applicants: map<string, string>, failing: set<Command>, token: string): string {
    if HGET in failing || token !in applicants then "" else applicants[token]
  }

  /** The applicants a batch of tokens refers to. */
  function Candidates(applicants: map<string, string>, failing: set<Command>, apps: seq<string>): set<string> {
    set i | 0 <= i < |apps| && Mapped(applicants, failing, apps[i]) :: Applicant(applicants, failing, apps[i])
  }

  /** The applicants of the mapped tokens whose ZADD was answered. */
  function Answered(applicants: map<string, string>, failing: set<Command>, apps: seq<string>, world: World): set<string> {
    set i | 0 <= i < |apps| && Mapped(applicants, failing, apps[i]) && !ZAddRefused(failing, world(i)) ::
      Applicant(applicants, failing, apps[i])
  }

  datatype Admitted = Admitted(seats: map<string, int>, count: nat)

  /** One turn of the push loop: ZADD NX the applicant of a mapped token with this turn's reading. */
  function Step(prev: Admitted, applicants: map<string, string>, failing: set<Command>,
                token: string, turn: Observed): Admitted
  {
    var member := Applicant(applicants, failing, token);
    if !Mapped(applicants, failing, token) || ZAddRefused(failing, turn) || member in prev.seats then prev
    else Admitted(prev.seats[member := turn.now], prev.count + 1)
  }

  /**
   * The push path: tokens in order, each mapped token ZADD NX-ed with the clock
   * reading of its turn; `count` adds each reply (1 for a new member, 0 otherwise);
   * a reply error is logged and skipped.
   */
  function Seated(seats: map<string, int>, applicants: map<string, string>, failing: set<Command>,
                  apps: seq<string>, world: World): Admitted
    decreases |apps|
  {
    if apps == [] then Admitted(seats, 0)
    else
      var n := |apps| - 1;
      Step(Seated(seats, applicants, failing, apps[..n], world), applicants, failing, apps[n], world(n))
  }

  /** The count is exactly the number of members added: seats only grow, and by at most one per token. */
  lemma {:induction false} SeatedGrowsByCount(seats: map<string, int>, applicants: map<string, string>,
                                              failing: set<Command>, apps: seq<string>, world: World)
    ensures var r := Seated(seats, applicants, failing, apps, world);
      && seats.Keys <= r.seats.Keys
      && |r.seats| == |seats| + r.count
      && r.count <= |apps|
    decreases |apps|
  {
    if apps != [] {
      SeatedGrowsByCount(seats, applicants, failing, apps[..|apps| - 1], world);
    }
  }

  /** A member already seated is neither re-added nor re-scored. */
  lemma {:induction false} SeatedKeepsScores(seats: map<string, int>, applicants: map<string, string>,
                                             failing: set<Command>, apps: seq<string>, world: World)
    ensures var r := Seated(seats, applicants, failing, apps, world);
      forall m | m in seats :: m in r.seats && r.seats[m] == seats[m]
    decreases |apps|
  {
    if apps != [] {
      SeatedKeepsScores(seats, applicants, failing, apps[..|apps| - 1], world);
    }
  }

  lemma CandidatesOfPrefix(applicants: map<string, string>, failing: set<Command>, apps: seq<string>)
    requires apps != []
    ensures var n := |apps| - 1;
      Candidates(applicants, failing, apps) ==
        Candidates(applicants, failing, apps[..n]) +
        (if Mapped(applicants, failing, apps[n]) then {Applicant(applicants, failing, apps[n])} else {})
  {
    var n := |apps| - 1;
    var p := apps[..n];
    forall m | m in Candidates(applicants, failing, apps)
      ensures m in Candidates(applicants, failing, p) ||
              (Mapped(applicants, failing, apps[n]) && m == Applicant(applicants, failing, apps[n]))
    {
      var i :| 0 <= i < |apps| && Mapped(applicants, failing, apps[i]) && m == Applicant(applicants, failing, apps[i]);
      if i < n {
        assert p[i] == apps[i];
      }
    }
    forall m | m in Candidates(applicants, failing, p) ensures m in Candidates(applicants, failing, apps) {
      var i :| 0 <= i < |p| && Mapped(applicants, failing, p[i]) && m == Applicant(applicants, failing, p[i]);
      assert apps[i] == p[i];
    }
  }

  lemma AnsweredOfPrefix(applicants: map<string, string>, failing: set<Command>, apps: seq<string>, world: World)
    requires apps != []
    ensures var n := |apps| - 1;
      Answered(applicants, failing, apps, world) ==
        Answered(applicants, failing, apps[..n], world) +
        (if Mapped(applicants, failing, apps[n]) && !ZAddRefused(failing, world(n))
         then {Applicant(applicants, failing, apps[n])} else {})
  {
    var n := |apps| - 1;
    var p := apps[..n];
    forall m | m in Answered(applicants, failing, apps, world)
      ensures m in Answered(applicants, failing, p, world) ||
              (Mapped(applicants, failing, apps[n]) && !ZAddRefused(failing, world(n)) &&
               m == Applicant(applicants, failing, apps[n]))
    {
      var i :| 0 <= i < |apps| && Mapped(applicants, failing, apps[i]) && !ZAddRefused(failing, world(i)) &&
               m == Applicant(applicants, failing, apps[i]);
      if i < n {
        assert p[i] == apps[i];
      }
    }
    forall m | m in Answered(applicants, failing, p, world) ensures m in Answered(applicants, failing, apps, world) {
      var i :| 0 <= i < |p| && Mapped(applicants, failing, p[i]) && !ZAddRefused(failing, world(i)) &&
               m == Applicant(applicants, failing, p[i]);
      assert apps[i] == p[i];
    }
  }

  /**
   * After a push the seat set is the old one plus the applicants of the mapped tokens whose
   * ZADD was answered: all the candidates when no turn errs.
   */
  lemma {:induction false} SeatedMembers(seats: map<string, int>, applicants: map<string, string>,
                                         failing: set<Command>, apps: seq<string>, world: World)
    ensures var r := Seated(seats, applicants, failing, apps, world);
      r.seats.Keys == seats.Keys + Answered(applicants, failing, apps, world)
    ensures var r := Seated(seats, applicants, failing, apps, world);
      (forall i | 0 <= i < |apps| :: !ZAddRefused(failing, world(i))) ==>
        r.seats.Keys == seats.Keys + Candidates(applicants, failing, apps)
    decreases |apps|
  {
    if apps != [] {
      SeatedMembers(seats, applicants, failing, apps[..|apps| - 1], world);
      AnsweredOfPrefix(applicants, failing, apps, world);
      CandidatesOfPrefix(applicants, failing, apps);
    }
  }

  /** When ZADD errs on every turn, nothing is seated and nothing counted. */
  lemma {:induction false} AllRefusedSeatsNothing(seats: map<string, int>, applicants: map<string, string>,
                                                  failing: set<Command>, apps: seq<string>, world: World)
    requires forall i | 0 <= i < |apps| :: ZAddRefused(failing, world(i))
    ensures Seated(seats, applicants, failing, apps, world) == Admitted(seats, 0)
    decreases |apps|
  {
    if apps != [] {
      AllRefusedSeatsNothing(seats, applicants, failing, apps[..|apps| - 1], world);
    }
  }

  /** Token `i` is mapped to `m` and its turn's ZADD is answered. */
  predicate AnsweredAt(applicants: map<string, string>, failing: set<Command>, apps: seq<string>, world: World,
                       i: nat, m: string)
  {
    i < |apps| && Mapped(applicants, failing, apps[i]) && !ZAddRefused(failing, world(i)) &&
    Applicant(applicants, failing, apps[i]) == m
  }

  /** Token `i` is the first of the batch that is mapped to `m` and whose ZADD is answered. */
  predicate FirstAnswered(applicants: map<string, string>, failing: set<Command>, apps: seq<string>, world: World,
                          i: nat, m: string)
  {
    AnsweredAt(applicants, failing, apps, world, i, m) &&
    forall j | 0 <= j < i :: !AnsweredAt(applicants, failing, apps, world, j, m)
  }

  /** Every newly seated member carries the clock reading of the first answered turn that maps to it (ZADD NX keeps the first). */
  lemma {:induction false} SeatedScores(seats: map<string, int>, applicants: map<string, string>,
                                        failing: set<Command>, apps: seq<string>, world: World)
    ensures var r := Seated(seats, applicants, failing, apps, world);
      forall m | m in r.seats && m !in seats ::
        exists i: nat :: FirstAnswered(applicants, failing, apps, world, i, m) && r.seats[m] == world(i).now
    decreases |apps|
  {
    if apps != [] {
      var n := |apps| - 1;
      var p := apps[..n];
      SeatedScores(seats, applicants, failing, p, world);
      SeatedMembers(seats, applicants, failing, p, world);
      var prev := Seated(seats, applicants, failing, p, world);
      var r := Seated(seats, applicants, failing, apps, world);
      forall m | m in r.seats && m !in seats
        ensures exists i: nat :: FirstAnswered(applicants, failing, apps, world, i, m) && r.seats[m] == world(i).now
      {
        if m in prev.seats {
          var i: nat :| FirstAnswered(applicants, failing, p, world, i, m) && prev.seats[m] == world(i).now;
          PrefixAnswered(applicants, failing, apps, world, i, m);
          assert FirstAnswered(applicants, failing, apps, world, i, m);
        } else {
          assert r.seats[m] == world(n).now;
          assert FirstAnswered(applicants, failing, apps, world, n, m);
        }
      }
    }
  }

  /** Below the prefix's length, answering in the prefix and in the whole batch agree. */
  lemma PrefixAnswered(applicants: map<string, string>, failing: set<Command>, apps: seq<string>, world: World,
                       i: nat, m: string)
    requires apps != [] && i < |apps| - 1
    ensures forall j | 0 <= j <= i ::
      AnsweredAt(applicants, failing, apps[..|apps| - 1], world, j, m) == AnsweredAt(applicants, failing, apps, world, j, m)
  {
    forall j | 0 <= j <= i
      ensures AnsweredAt(applicants, failing, apps[..|apps| - 1], world, j, m) == AnsweredAt(applicants, failing, apps, world, j, m)
    {
      assert apps[..|apps| - 1][j] == apps[j];
    }
  }

  /** A member that had no seat and is first answered at turn `i` is seated with that turn's reading. */
  lemma FirstAnsweredScore(seats: map<string, int>, applicants: map<string, string>, failing: set<Command>,
                           apps: seq<string>, world: World, i: nat, m: string)
    requires FirstAnswered(applicants, failing, apps, world, i, m) && m !in seats
    ensures var r := Seated(seats, applicants, failing, apps, world);
      m in r.seats && r.seats[m] == world(i).now
  {
    var r := Seated(seats, applicants, failing, apps, world);
    SeatedMembers(seats, applicants, failing, apps, world);
    assert m in Answered(applicants, failing, apps, world);
    SeatedScores(seats, applicants, failing, apps, world);
    var i': nat :| FirstAnswered(applicants, failing, apps, world, i', m) && r.seats[m] == world(i').now;
    if i' < i {
      assert AnsweredAt(applicants, failing, apps, world, i', m);
    } else if i < i' {
      assert AnsweredAt(applicants, failing, apps, world, i, m);
    }
  }

  /**
   * With a clock that does not run backwards and old seats scored no later than the first
   * turn, the new members come after every old seat, in the order of their first answered
   * turns: the applicants are appended in order.
   */
  lemma SeatedInArrivalOrder(seats: map<string, int>, applicants: map<string, string>, failing: set<Command>,
                             apps: seq<string>, world: World)
    requires forall i, j | 0 <= i <= j < |apps| :: world(i).now <= world(j).now
    requires forall m | m in seats :: seats[m] <= world(0).now
    ensures var r := Seated(seats, applicants, failing, apps, world);
      forall m, old_m | m in r.seats && m !in seats && old_m in seats :: old_m in r.seats && r.seats[old_m] <= r.seats[m]
    ensures var r := Seated(seats, applicants, failing, apps, world);
      forall m1, m2, i1, i2 |
        && m1 !in seats && m2 !in seats && i1 <= i2
        && FirstAnswered(applicants, failing, apps, world, i1, m1)
        && FirstAnswered(applicants, failing, apps, world, i2, m2) ::
        m1 in r.seats && m2 in r.seats && r.seats[m1] <= r.seats[m2]
  {
    var r := Seated(seats, applicants, failing, apps, world);
    SeatedScores(seats, applicants, failing, apps, world);
    SeatedKeepsScores(seats, applicants, failing, apps, world);
    forall m, old_m | m in r.seats && m !in seats && old_m in seats
      ensures old_m in r.seats && r.seats[old_m] <= r.seats[m]
    {
      var i: nat :| FirstAnswered(applicants, failing, apps, world, i, m) && r.seats[m] == world(i).now;
      assert world(0).now <= world(i).now;
    }
    forall m1, m2, i1, i2 |
      && m1 !in seats && m2 !in seats && i1 <= i2
      && FirstAnswered(applicants, failing, apps, world, i1, m1)
      && FirstAnswered(applicants, failing, apps, world, i2, m2)
      ensures m1 in r.seats && m2 in r.seats && r.seats[m1] <= r.seats[m2]
    {
      FirstAnsweredScore(seats, applicants, failing, apps, world, i1, m1);
      FirstAnsweredScore(seats, applicants, failing, apps, world, i2, m2);
    }
  }

  /** When every applicant of the batch is already seated, a push changes nothing and counts nothing. */
  lemma {:induction false} AllSeatedAddsNothing(seats: map<string, int>, applicants: map<string, string>,
                                                failing: set<Command>, apps: seq<string>, world: World)
    requires Candidates(applicants, failing, apps) <= seats.Keys
    ensures Seated(seats, applicants, failing, apps, world) == Admitted(seats, 0)
    decreases |apps|
  {
    if apps != [] {
      CandidatesOfPrefix(applicants, failing, apps);
      AllSeatedAddsNothing(seats, applicants, failing, apps[..|apps| - 1], world);
    }
  }

  /**
   * Re-processing a batch whose ZADDs were all answered (at any later turns, failing or not)
   * seats no one twice: the second push adds nothing.
   */
  lemma ReprocessingAddsNothing(seats: map<string, int>, applicants: map<string, string>,
                                failing: set<Command>, apps: seq<string>, world: World, later: World)
    requires forall i | 0 <= i < |apps| :: !world(i).zaddError
    ensures var r := Seated(seats, applicants, failing, apps, world);
      Seated(r.seats, applicants, failing, apps, later) == Admitted(r.seats, 0)
  {
    var r := Seated(seats, applicants, failing, apps, world);
    SeatedMembers(seats, applicants, failing, apps, world);
    if ZADD in failing {
      AllRefusedSeatsNothing(r.seats, applicants, failing, apps, later);
    } else {
      AllSeatedAddsNothing(r.seats, applicants, failing, apps, later);
    }
  }

  /**
   * A token that is empty or unmapped changes nothing, wherever it stands in the batch:
   * the batch without it, with the remaining tokens observing what they observed before, seats the same.
   */
  lemma {:induction false} SkippedTokenChangesNothing(seats: map<string, int>, applicants: map<string, string>,
                                                      failing: set<Command>, a: seq<string>, t: string,
                                                      b: seq<string>, world: World, skipped: World)
    requires !Mapped(applicants, failing, t)
    requires forall i | 0 <= i < |a| :: skipped(i) == world(i)
    requires forall i | |a| <= i < |a| + |b| :: skipped(i) == world(i + 1)
    ensures Seated(seats, applicants, failing, a + [t] + b, world) ==
            Seated(seats, applicants, failing, a + b, skipped)
    decreases |b|
  {
    if b == [] {
      SkipLastToken(seats, applicants, failing, a, t, world, skipped);
    } else {
      var n := |b| - 1;
      var b' := b[..n];
      var long, short := a + [t] + b, a + b;
      SplitLast(a, t, b);
      SkippedTokenChangesNothing(seats, applicants, failing, a, t, b', world, skipped);
      SeatedLast(seats, applicants, failing, long, world);
      SeatedLast(seats, applicants, failing, short, skipped);
    }
  }

  lemma SkipLastToken(seats: map<string, int>, applicants: map<string, string>, failing: set<Command>,
                      a: seq<string>, t: string, world: World, skipped: World)
    requires !Mapped(applicants, failing, t)
    requires forall i | 0 <= i < |a| :: world(i) == skipped(i)
    ensures Seated(seats, applicants, failing, a + [t] + [], world) == Seated(seats, applicants, failing, a + [], skipped)
  {
    assert a + [t] + [] == a + [t];
    assert (a + [t])[..|a|] == a;
    assert a + [] == a;
    SameWorldOnPrefix(seats, applicants, failing, a, world, skipped);
  }

  lemma SplitLast(a: seq<string>, t: string, b: seq<string>)
    requires b != []
    ensures var long, short, b' := a + [t] + b, a + b, b[..|b| - 1];
      && long[..|long| - 1] == a + [t] + b'
      && short[..|short| - 1] == a + b'
      && long[|long| - 1] == b[|b| - 1] == short[|short| - 1]
      && |long| == |short| + 1 && |short| - 1 >= |a|
  {
  }

  lemma SeatedLast(seats: map<string, int>, applicants: map<string, string>, failing: set<Command>,
                   apps: seq<string>, world: World)
    requires apps != []
    ensures var n := |apps| - 1;
      Seated(seats, applicants, failing, apps, world) ==
      Step(Seated(seats, applicants, failing, apps[..n], world), applicants, failing, apps[n], world(n))
  {
  }

  /** Only what the batch's own turns observe matters. */
  lemma {:induction false} SameWorldOnPrefix(seats: map<string, int>, applicants: map<string, string>,
                                             failing: set<Command>, apps: seq<string>, w1: World, w2: World)
    requires forall i | 0 <= i < |apps| :: w1(i) == w2(i)
    ensures Seated(seats, applicants, failing, apps, w1) == Seated(seats, applicants, failing, apps, w2)
    decreases |apps|
  {
    if apps != [] {
      SameWorldOnPrefix(seats, applicants, failing, apps[..|apps| - 1], w1, w2);
    }
  }

  /**
   * Two applications of the same applicant in one batch: one seat, counted once, scored at the
   * first turn whose ZADD is answered.
   */
  lemma OneApplicantTwoApplications(world: World)
    ensures !world(0).zaddError ==>
      Seated(map[], map["a1" := "u", "a2" := "u"], {}, ["a1", "a2"], world) == Admitted(map["u" := world(0).now], 1)
    ensures world(0).zaddError && !world(1).zaddError ==>
      Seated(map[], map["a1" := "u", "a2" := "u"], {}, ["a1", "a2"], world) == Admitted(map["u" := world(1).now], 1)
  {
    var apps := ["a1", "a2"];
    assert apps[..1] == ["a1"];
    assert apps[..1][..0] == [];
  }

  // ---- the body of the WATCH transaction (activity_legacy.go, processFunc2's txf)

  /** The transaction body checks HEXISTS only: an empty token that is a field is admitted too. */
  predicate TxMapped(applicants: map<string, string>, failing: set<Command>, token: string) {
    HEXISTS !in failing && token in applicants
  }

  datatype TxAdmitted = TxAdmitted(seats: map<string, int>, count: nat, aborted: bool)

  /** Like `Seated`, except that a ZADD reply error ends the body (`aborted`) and leaves the rest unprocessed. */
  function TxSeated(seats: map<string, int>, applicants: map<string, string>, failing: set<Command>,
                    apps: seq<string>, world: World): TxAdmitted
    decreases |apps|
  {
    if apps == [] then TxAdmitted(seats, 0, false)
    else
      var n := |apps| - 1;
      var prev := TxSeated(seats, applicants, failing, apps[..n], world);
      var member := Applicant(applicants, failing, apps[n]);
      if prev.aborted || !TxMapped(applicants, failing, apps[n]) then prev
      else if ZAddRefused(failing, world(n)) then TxAdmitted(prev.seats, prev.count, true)
      else if member in prev.seats then prev
      else TxAdmitted(prev.seats[member := world(n).now], prev.count + 1, false)
  }

  /** Once the body has aborted, later tokens change nothing. */
  lemma {:induction false} TxAbortIsFinal(seats: map<string, int>, applicants: map<string, string>,
                                          failing: set<Command>, apps: seq<string>, k: nat, world: World)
    requires k <= |apps|
    requires TxSeated(seats, applicants, failing, apps[..k], world).aborted
    ensures TxSeated(seats, applicants, failing, apps, world) == TxSeated(seats, applicants, failing, apps[..k], world)
    decreases |apps|
  {
    if k < |apps| {
      var n := |apps| - 1;
      assert apps[..n][..k] == apps[..k];
      TxAbortIsFinal(seats, applicants, failing, apps[..n], k, world);
    } else {
      assert apps[..k] == apps;
    }
  }

  /**
   * The accepted count is at most the number of tokens and is the growth of the seat set;
   * when the store fails every ZADD nothing is seated.
   */
  lemma {:induction false} TxBounds(seats: map<string, int>, applicants: map<string, string>,
                                    failing: set<Command>, apps: seq<string>, world: World)
    ensures var r := TxSeated(seats, applicants, failing, apps, world);
      && seats.Keys <= r.seats.Keys
      && |r.seats| == |seats| + r.count
      && r.count <= |apps|
    ensures var r := TxSeated(seats, applicants, failing, apps, world);
      ZADD in failing ==> r.seats == seats && r.count == 0
    decreases |apps|
  {
    if apps != [] {
      TxBounds(seats, applicants, failing, apps[..|apps| - 1], world);
    }
  }

  /** The body aborts exactly when ZADD errs on the turn of a token that passed HEXISTS. */
  lemma {:induction false} TxAbortsExactly(seats: map<string, int>, applicants: map<string, string>,
                                           failing: set<Command>, apps: seq<string>, world: World)
    ensures TxSeated(seats, applicants, failing, apps, world).aborted <==>
      exists i :: 0 <= i < |apps| && TxMapped(applicants, failing, apps[i]) && ZAddRefused(failing, world(i))
    decreases |apps|
  {
    if apps != [] {
      var n := |apps| - 1;
      var p := apps[..n];
      TxAbortsExactly(seats, applicants, failing, p, world);
      if exists i :: 0 <= i < |p| && TxMapped(applicants, failing, p[i]) && ZAddRefused(failing, world(i)) {
        var i :| 0 <= i < |p| && TxMapped(applicants, failing, p[i]) && ZAddRefused(failing, world(i));
        assert apps[i] == p[i];
      }
      if exists i :: 0 <= i < |apps| && TxMapped(applicants, failing, apps[i]) && ZAddRefused(failing, world(i)) {
        var i :| 0 <= i < |apps| && TxMapped(applicants, failing, apps[i]) && ZAddRefused(failing, world(i));
        if i < n {
          assert p[i] == apps[i];
        }
      }
    }
  }

  /**
   * An aborted body keeps what the tokens before the failing one seated: there is a token `k`
   * that passed HEXISTS and whose ZADD erred, the tokens before it ran without error, and the
   * outcome is theirs; the tokens after it are popped but never seated.
   */
  lemma {:induction false} TxAbortKeepsEarlierSeats(seats: map<string, int>, applicants: map<string, string>,
                                                    failing: set<Command>, apps: seq<string>, world: World)
    requires TxSeated(seats, applicants, failing, apps, world).aborted
    ensures exists k | 0 <= k < |apps| ::
      && TxMapped(applicants, failing, apps[k]) && ZAddRefused(failing, world(k))
      && var before := TxSeated(seats, applicants, failing, apps[..k], world);
         && !before.aborted
         && TxSeated(seats, applicants, failing, apps, world) == TxAdmitted(before.seats, before.count, true)
    decreases |apps|
  {
    var n := |apps| - 1;
    var p := apps[..n];
    var prev := TxSeated(seats, applicants, failing, p, world);
    if prev.aborted {
      TxAbortKeepsEarlierSeats(seats, applicants, failing, p, world);
      var k :| 0 <= k < |p| && TxMapped(applicants, failing, p[k]) && ZAddRefused(failing, world(k)) &&
               var before := TxSeated(seats, applicants, failing, p[..k], world);
               !before.aborted && prev == TxAdmitted(before.seats, before.count, true);
      assert p[k] == apps[k] && p[..k] == apps[..k];
    } else {
      assert p == apps[..n];
    }
  }

  /** A member already seated is neither re-added nor re-scored by the transaction body. */
  lemma {:induction false} TxKeepsScores(seats: map<string, int>, applicants: map<string, string>,
                                         failing: set<Command>, apps: seq<string>, world: World)
    ensures var r := TxSeated(seats, applicants, failing, apps, world);
      forall m | m in seats :: m in r.seats && r.seats[m] == seats[m]
    decreases |apps|
  {
    if apps != [] {
      TxKeepsScores(seats, applicants, failing, apps[..|apps| - 1], world);
    }
  }

  /** The applicants of the tokens that pass HEXISTS and whose ZADD is answered. */
  function TxAnswered(applicants: map<string, string>, failing: set<Command>, apps: seq<string>, world: World): set<string> {
    set i | 0 <= i < |apps| && TxMapped(applicants, failing, apps[i]) && !ZAddRefused(failing, world(i)) ::
      Applicant(applicants, failing, apps[i])
  }

  lemma TxAnsweredOfPrefix(applicants: map<string, string>, failing: set<Command>, apps: seq<string>, world: World)
    requires apps != []
    ensures var n := |apps| - 1;
      TxAnswered(applicants, failing, apps, world) ==
        TxAnswered(applicants, failing, apps[..n], world) +
        (if TxMapped(applicants, failing, apps[n]) && !ZAddRefused(failing, world(n))
         then {Applicant(applicants, failing, apps[n])} else {})
  {
    var n := |apps| - 1;
    var p := apps[..n];
    forall m | m in TxAnswered(applicants, failing, apps, world)
      ensures m in TxAnswered(applicants, failing, p, world) ||
              (TxMapped(applicants, failing, apps[n]) && !ZAddRefused(failing, world(n)) &&
               m == Applicant(applicants, failing, apps[n]))
    {
      var i :| 0 <= i < |apps| && TxMapped(applicants, failing, apps[i]) && !ZAddRefused(failing, world(i)) &&
               m == Applicant(applicants, failing, apps[i]);
      if i < n {
        assert p[i] == apps[i];
      }
    }
    forall m | m in TxAnswered(applicants, failing, p, world) ensures m in TxAnswered(applicants, failing, apps, world) {
      var i :| 0 <= i < |p| && TxMapped(applicants, failing, p[i]) && !ZAddRefused(failing, world(i)) &&
               m == Applicant(applicants, failing, p[i]);
      assert apps[i] == p[i];
    }
  }

  /**
   * The seat set after the body: the old members plus the applicants of the tokens that
   * passed HEXISTS and were answered, counting only the tokens before the one that aborted.
   */
  lemma {:induction false} TxMembers(seats: map<string, int>, applicants: map<string, string>,
                                     failing: set<Command>, apps: seq<string>, world: World)
    ensures var r := TxSeated(seats, applicants, failing, apps, world);
      !r.aborted ==> r.seats.Keys == seats.Keys + TxAnswered(applicants, failing, apps, world)
    ensures var r := TxSeated(seats, applicants, failing, apps, world);
      r.aborted ==> exists k | 0 <= k < |apps| ::
        && TxMapped(applicants, failing, apps[k]) && ZAddRefused(failing, world(k))
        && r.seats.Keys == seats.Keys + TxAnswered(applicants, failing, apps[..k], world)
    decreases |apps|
  {
    var r := TxSeated(seats, applicants, failing, apps, world);
    if r.aborted {
      TxAbortKeepsEarlierSeats(seats, applicants, failing, apps, world);
      var k :| 0 <= k < |apps| && TxMapped(applicants, failing, apps[k]) && ZAddRefused(failing, world(k)) &&
               var before := TxSeated(seats, applicants, failing, apps[..k], world);
               !before.aborted && r == TxAdmitted(before.seats, before.count, true);
      TxMembers(seats, applicants, failing, apps[..k], world);
    } else if apps != [] {
      var n := |apps| - 1;
      TxMembers(seats, applicants, failing, apps[..n], world);
      TxAnsweredOfPrefix(applicants, failing, apps, world);
    }
  }

  /** On batches without empty tokens and without a ZADD error, the transaction body seats exactly what the push path seats. */
  lemma {:induction false} TxAgreesWithPush(seats: map<string, int>, applicants: map<string, string>,
                                            failing: set<Command>, apps: seq<string>, world: World)
    requires forall i | 0 <= i < |apps| :: !ZAddRefused(failing, world(i))
    requires forall i | 0 <= i < |apps| :: apps[i] != ""
    ensures var push := Seated(seats, applicants, failing, apps, world);
      TxSeated(seats, applicants, failing, apps, world) == TxAdmitted(push.seats, push.count, false)
    decreases |apps|
  {
    if apps != [] {
      var n := |apps| - 1;
      assert forall i | 0 <= i < n :: apps[..n][i] == apps[i];
      TxAgreesWithPush(seats, applicants, failing, apps[..n], world);
    }
  }

  /** An empty token that is a field of the hash is seated by the transaction body but not by the push path. */
  lemma EmptyTokenOnlyInTransaction(world: World)
    ensures Seated(map[], map["" := "u"], {}, [""], world) == Admitted(map[], 0)
    ensures !world(0).zaddError ==>
      TxSeated(map[], map["" := "u"], {}, [""], world) == TxAdmitted(map["u" := world(0).now], 1, false)
  {
    assert [""][..0] == [];
  }
}
