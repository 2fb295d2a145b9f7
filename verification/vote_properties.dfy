/**
 * What the vote endpoint promises across several requests: the rate
 * limiter's budget per window, the agreement of the tally migration with
 * the per-voter choice migration, the idempotence of every request on the
 * stored votes, and the invariant that each tally slot counts the voters
 * whose stored choice is that slot.
 */
module VoteProperties {
  import opened Options
  import opened Votes
  import opened ClientIdentity

  /** The rate check of the `n`-th consecutive request from `ip`. */
  function Burst(windows: map<string, Window>, ip: string, ttl: int, n: nat): (r: RateCheck)
    requires n >= 1
    ensures ip in r.windows
  {
    if n == 1 then CheckRateLimit(windows, ip, ttl)
    else CheckRateLimit(Burst(windows, ip, ttl, n - 1).windows, ip, ttl)
  }

  /** From a client without a live window, the first ten requests are let
      through with nine, eight, ..., zero requests remaining, and every later
      one is refused; the reset time is the store's time-to-live. */
  lemma {:induction false} BurstFromFresh(windows: map<string, Window>, ip: string, ttl: int, n: nat)
    requires ip !in windows && n >= 1
    ensures Burst(windows, ip, ttl, n).windows[ip] == Window(n, true)
    ensures Burst(windows, ip, ttl, n).limit.allowed <==> n <= RateLimitMax
    ensures Burst(windows, ip, ttl, n).limit.remaining == Max(0, RateLimitMax - n)
    ensures Burst(windows, ip, ttl, n).limit.resetIn == (if ttl > 0 then ttl else RateLimitWindowSeconds)
  {
    if n > 1 {
      BurstFromFresh(windows, ip, ttl, n - 1);
    }
  }

  /** Once the window lapses the client has its full budget again, however
      many requests it made before. */
  lemma BurstAfterExpiry(windows: map<string, Window>, ip: string, ttl: int, n: nat)
    requires n >= 1
    ensures Burst(ExpireWindow(windows, ip), ip, ttl, n).limit.allowed <==> n <= RateLimitMax
    ensures Burst(ExpireWindow(windows, ip), ip, ttl, n).limit.remaining == Max(0, RateLimitMax - n)
  {
    BurstFromFresh(ExpireWindow(windows, ip), ip, ttl, n);
  }

  /** The tally migration moves each old slot's count to the new slot that
      the choice migration sends that old choice to: slot `j` of the
      migrated tally is the sum of the old slots `i` with
      MigrateUserVote(i) == j. */
  lemma MigrationsAgree(legacy: seq<int>, j: int)
    requires |legacy| == OldNumOptions && 0 <= j < NumOptions
    ensures MigrateTally(legacy)[j] == MigratedInto(legacy, j, OldNumOptions)
  {
    assert MigratedInto(legacy, j, 1) == (if j == 3 then legacy[0] else 0);
    assert MigratedInto(legacy, j, 2) == (if j == 3 then legacy[0] else 0) + (if j == 2 then legacy[1] else 0);
    assert MigratedInto(legacy, j, 3) == (if j == 3 then legacy[0] else 0) + (if j == 2 then legacy[1] + legacy[2] else 0);
  }

  /** A legacy tally of Terrible 10, Bad 5, Okay 3, Good 8 and Love it 20
      reads as Love it 20, Good 8, Meh 8 and Hate it 10, and is written back. */
  lemma TallyMigrationExample()
    ensures GetVotes(Some(IntArray([10, 5, 3, 8, 20]))) == TallyRead([20, 8, 8, 10], Some([20, 8, 8, 10]))
  {
  }

  /** The voters whose stored choice is slot `j`. */
  function Voters(choices: map<string, Value>, j: int): set<string> {
    set k | k in choices && choices[k] == Number(j)
  }

  /** Every stored choice is an index of the current schema. */
  predicate ChoicesCurrent(choices: map<string, Value>) {
    forall k :: k in choices ==> choices[k].Number? && 0 <= choices[k].n < NumOptions
  }

  /** The tally key is absent or holds a current-schema tally. */
  predicate TallyCurrent(tally: Option<Value>) {
    tally.None? || (tally.value.IntArray? && |tally.value.items| == NumOptions)
  }

  /** The stored tally counts, slot by slot, the voters who chose that slot. */
  predicate Consistent(s: Store) {
    && TallyCurrent(s.tally)
    && ChoicesCurrent(s.choices)
    && forall j :: 0 <= j < NumOptions ==> GetVotes(s.tally).votes[j] == |Voters(s.choices, j)|
  }

  /** The store before any vote is consistent. */
  lemma EmptyStoreConsistent(windows: map<string, Window>)
    ensures Consistent(Store(None, map[], windows))
  {
    forall j | 0 <= j < NumOptions ensures |Voters(map[], j)| == 0 {
      assert Voters(map[], j) == {};
    }
  }

  /** Under the invariant the votes shown add up to the number of voters. */
  lemma ConsistentTotal(s: Store)
    requires Consistent(s)
    ensures Sum(GetVotes(s.tally).votes) == |s.choices|
  {
    var c := s.choices;
    var v0, v1, v2, v3 := Voters(c, 0), Voters(c, 1), Voters(c, 2), Voters(c, 3);
    assert c.Keys == v0 + v1 + v2 + v3 by {
      forall k | k in c.Keys ensures k in v0 + v1 + v2 + v3 {
        assert c[k].Number? && 0 <= c[k].n < NumOptions;
      }
    }
    assert v0 * v1 == {} && (v0 + v1) * v2 == {} && (v0 + v1 + v2) * v3 == {};
    assert |v0 + v1| == |v0| + |v1|;
    assert |v0 + v1 + v2| == |v0 + v1| + |v2|;
    assert |v0 + v1 + v2 + v3| == |v0 + v1 + v2| + |v3|;
    assert |c| == |c.Keys|;
    SumOfFour(GetVotes(s.tally).votes);
  }

  /** How the voter sets change when `ip` moves its choice to `index`. */
  lemma VotersAfterChoice(choices: map<string, Value>, ip: string, index: int, j: int)
    requires ChoiceOf(choices, ip) != Some(Number(index))
    ensures j == index ==> Voters(choices[ip := Number(index)], j) == Voters(choices, j) + {ip}
    ensures j == index ==> ip !in Voters(choices, j)
    ensures j != index && ChoiceOf(choices, ip) == Some(Number(j)) ==>
      Voters(choices[ip := Number(index)], j) == Voters(choices, j) - {ip} && ip in Voters(choices, j)
    ensures j != index && ChoiceOf(choices, ip) != Some(Number(j)) ==>
      Voters(choices[ip := Number(index)], j) == Voters(choices, j)
  {
    var after := choices[ip := Number(index)];
    assert forall k :: k in Voters(after, j) <==> (k == ip && j == index) || (k != ip && k in Voters(choices, j));
  }

  lemma GetPreservesConsistency(s: Store, ip: string)
    requires Consistent(s)
    ensures Consistent(HandleGet(s, ip).store)
  {
    var o := HandleGet(s, ip);
    assert o.store.choices == s.choices;
  }

  lemma PostPreservesConsistency(s: Store, ip: string, body: Body)
    requires Consistent(s)
    ensures Consistent(HandlePost(s, ip, body).store)
  {
    var o := HandlePost(s, ip, body);
    if body.JsonObject? && ValidIndex(body.index).Some? {
      var index := ValidIndex(body.index).value;
      var previous := ChoiceOf(s.choices, ip);
      var votes := GetVotes(s.tally).votes;
      if previous != Some(Number(index)) {
        var t := MoveVote(votes, previous, index);
        assert o.store.tally == Some(IntArray(t));
        assert GetVotes(o.store.tally).votes == t;
        forall j | 0 <= j < NumOptions
          ensures t[j] == |Voters(o.store.choices, j)|
        {
          VotersAfterChoice(s.choices, ip, index, j);
        }
      }
    }
  }

  /** Every request keeps the invariant: a store that starts empty counts
      its voters exactly, whatever requests arrive. */
  lemma HandlePreservesConsistency(s: Store, req: Request, ttl: int)
    requires Consistent(s)
    ensures Consistent(Handle(s, req, ttl).store)
  {
    if req.verb != "OPTIONS" {
      var ip := ClientIp(req.forwarded, req.remoteAddress);
      var s1 := s.(windows := CheckRateLimit(s.windows, ip, ttl).windows);
      assert Consistent(s1);
      GetPreservesConsistency(s1, ip);
      PostPreservesConsistency(s1, ip, req.body);
    }
  }

  /** Sending the same vote again, whatever happened to the rate-limit
      counters in between, changes nothing and gets the same answer. */
  lemma PostIdempotent(s: Store, ip: string, body: Body, w: map<string, Window>)
    ensures var o := HandlePost(s, ip, body);
      var again := HandlePost(o.store.(windows := w), ip, body);
      again.response == o.response && again.store == o.store.(windows := w)
  {
  }

  /** A second GET finds nothing left to migrate. */
  lemma GetIdempotent(s: Store, ip: string, w: map<string, Window>)
    ensures var o := HandleGet(s, ip);
      var again := HandleGet(o.store.(windows := w), ip);
      again.response == o.response && again.store == o.store.(windows := w)
  {
  }

  /** Repeating any request leaves the votes and choices where the first one
      put them, and, unless the repeat is throttled, answers the same. */
  lemma HandleIdempotent(s: Store, req: Request, ttl1: int, ttl2: int)
    ensures var o1 := Handle(s, req, ttl1);
      var o2 := Handle(o1.store, req, ttl2);
      && o2.store.tally == o1.store.tally
      && o2.store.choices == o1.store.choices
      && (o2.response.status != 429 ==> o2.response.payload == o1.response.payload)
  {
    var o1 := Handle(s, req, ttl1);
    var o2 := Handle(o1.store, req, ttl2);
    if req.verb != "OPTIONS" {
      var ip := ClientIp(req.forwarded, req.remoteAddress);
      var c1 := CheckRateLimit(s.windows, ip, ttl1);
      var s1 := s.(windows := c1.windows);
      var c2 := CheckRateLimit(o1.store.windows, ip, ttl2);
      assert c2.limit.allowed ==> c1.limit.allowed;
      if c2.limit.allowed {
        if req.verb == "GET" {
          GetIdempotent(s1, ip, c2.windows);
          assert o1 == HandleGet(s1, ip).(response := HandleGet(s1, ip).response.(rateLimit := Some(c1.limit)));
        } else if req.verb == "POST" {
          PostIdempotent(s1, ip, req.body, c2.windows);
          assert o1 == HandlePost(s1, ip, req.body).(response := HandlePost(s1, ip, req.body).response.(rateLimit := Some(c1.limit)));
        }
      }
    }
  }

  /** From a tally of non-negative counts, a voter who picks `a` and then
      `b` leaves slot `a` as it was and adds one vote to `b`. */
  lemma ChangeOfMind(s: Store, ip: string, base: seq<int>, a: int, b: int)
    requires ip !in s.choices
    requires s.tally == Some(IntArray(base)) && |base| == NumOptions
    requires forall j :: 0 <= j < |base| ==> base[j] >= 0
    requires 0 <= a < NumOptions && 0 <= b < NumOptions && a != b
    ensures var o1 := HandlePost(s, ip, JsonObject(JsonNumber(a as real)));
      var o2 := HandlePost(o1.store, ip, JsonObject(JsonNumber(b as real)));
      && o2.store.tally == Some(IntArray(base[b := base[b] + 1]))
      && o2.store.choices == s.choices[ip := Number(b)]
      && o2.response.payload == VoteState(base[b := base[b] + 1], Some(b))
  {
    var o1 := HandlePost(s, ip, JsonObject(JsonNumber(a as real)));
    var t1 := base[a := base[a] + 1];
    assert ValidIndex(JsonNumber(a as real)) == Some(a);
    assert ValidIndex(JsonNumber(b as real)) == Some(b);
    assert o1.store.tally == Some(IntArray(t1));
    assert o1.store.choices == s.choices[ip := Number(a)];
    var o2 := HandlePost(o1.store, ip, JsonObject(JsonNumber(b as real)));
    assert ChoiceOf(o1.store.choices, ip) == Some(Number(a));
    assert GetVotes(o1.store.tally).votes == t1;
    assert t1[a := Max(0, t1[a] - 1)] == base;
    assert MoveVote(t1, Some(Number(a)), b) == base[b := base[b] + 1];
  }

  /** A stored choice below four is read verbatim, even next to a tally of
      the retired schema; under that schema choices 0, 1 and 3 meant other
      sentiments than they do now, so such a voter's choice is shown under
      the wrong slot. */
  lemma LegacyChoiceReadVerbatim(s: Store, ip: string, k: int)
    requires ip in s.choices && s.choices[ip] == Number(k) && 0 <= k < NumOptions
    ensures HandleGet(s, ip).response.payload.userVote == Some(k)
    ensures HandleGet(s, ip).store.choices == s.choices
    ensures k == 0 || k == 1 || k == 3 <==> MigrateUserVote(k) != k
  {
  }
}
