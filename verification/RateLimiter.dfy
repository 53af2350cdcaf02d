/** The per-client token bucket, and what it admits over whole runs. */
module RateLimiters {
  import opened Options

  datatype Bucket = Bucket(tokens: real, lastRefill: real)

  /** Burst size and refill rate per second. */
  datatype Limits = Limits(capacity: real, refill: real)

  type Client = string

  function Min(x: real, y: real): real { if y < x then y else x }

  /** The tokens that `elapsed` seconds bring. */
  function Gain(l: Limits, elapsed: real): real { elapsed * l.refill }

  lemma Gains(l: Limits, x: real, y: real)
    requires l.refill >= 0.0
    ensures Gain(l, x + y) == Gain(l, x) + Gain(l, y) && Gain(l, 0.0) == 0.0
    ensures x >= 0.0 ==> Gain(l, x) >= 0.0
  {
  }

  /** What a request at `now` finds in the bucket. */
  function Refilled(l: Limits, b: Bucket, now: real): real {
    Min(l.capacity, b.tokens + Gain(l, now - b.lastRefill))
  }

  /** Whether a request at `now` is admitted; a new client always is. */
  predicate Admits(l: Limits, b: Option<Bucket>, now: real) {
    b.None? || Refilled(l, b.value, now) >= 1.0
  }

  /** The bucket after the request; an empty bucket does not go negative. */
  function After(l: Limits, b: Option<Bucket>, now: real): Bucket {
    if b.None? then Bucket(l.capacity - 1.0, now)
    else if Admits(l, b, now) then Bucket(Refilled(l, b.value, now) - 1.0, now)
    else Bucket(0.0, now)
  }

  class RateLimiter {
    const limits: Limits
    var disabled: bool
    var buckets: map<Client, Bucket>

    constructor (capacity: real, refill: real)
      ensures limits == Limits(capacity, refill) && !disabled && buckets == map[]
    {
      limits, disabled, buckets := Limits(capacity, refill), false, map[];
    }

    method SetDisabled(disabled: bool)
      modifies this`disabled
      ensures this.disabled == disabled
    {
      this.disabled := disabled;
    }

    /** Takes one token of `client` at the time `now`. */
    method Check(client: Client, now: real) returns (ok: bool)
      modifies this`buckets
      ensures disabled ==> ok && buckets == old(buckets)
      ensures !disabled ==> ok == Admits(limits, Find(old(buckets), client), now)
      ensures !disabled ==> buckets == old(buckets)[client := After(limits, Find(old(buckets), client), now)]
    {
      if disabled { return true; }
      if client !in buckets {
        buckets := buckets[client := Bucket(limits.capacity - 1.0, now)];
        return true;
      }
      var b := buckets[client];
      var elapsed := now - b.lastRefill;
      b := Bucket(Min(limits.capacity, b.tokens + Gain(limits, elapsed)), now);
      b := b.(tokens := b.tokens - 1.0);
      ok := !(b.tokens < 0.0);
      if !ok { b := b.(tokens := 0.0); }
      buckets := buckets[client := b];
    }
  }

  function Find(buckets: map<Client, Bucket>, client: Client): Option<Bucket> {
    if client in buckets then Some(buckets[client]) else None
  }

  // ---- runs ------------------------------------------------------------------------------

  datatype Request = Request(client: Client, now: real)

  /** The buckets after the requests `reqs` of all clients, on a new limiter. */
  function Run(l: Limits, reqs: seq<Request>): map<Client, Bucket> {
    if reqs == [] then map[] else
      var before, r := Run(l, reqs[..|reqs| - 1]), reqs[|reqs| - 1];
      before[r.client := After(l, Find(before, r.client), r.now)]
  }

  /** The times of one client's requests. */
  function TimesOf(client: Client, reqs: seq<Request>): seq<real> {
    if reqs == [] then [] else
      var before, r := TimesOf(client, reqs[..|reqs| - 1]), reqs[|reqs| - 1];
      if r.client == client then before + [r.now] else before
  }

  /** One client's bucket after requests at the times `ts`. */
  function BucketAfter(l: Limits, ts: seq<real>): Option<Bucket> {
    if ts == [] then None else Some(After(l, BucketAfter(l, ts[..|ts| - 1]), ts[|ts| - 1]))
  }

  /** Whether the request `k` of a client is admitted. */
  predicate Admitted(l: Limits, ts: seq<real>, k: nat)
    requires k < |ts|
  {
    Admits(l, BucketAfter(l, ts[..k]), ts[k])
  }

  /** Clients do not influence each other. */
  lemma {:induction false} OwnRequestsOnly(l: Limits, reqs: seq<Request>, client: Client)
    ensures Find(Run(l, reqs), client) == BucketAfter(l, TimesOf(client, reqs))
  {
    if reqs != [] {
      var before, r := reqs[..|reqs| - 1], reqs[|reqs| - 1];
      OwnRequestsOnly(l, before, client);
      if r.client == client {
        var ts := TimesOf(client, reqs);
        assert ts[..|ts| - 1] == TimesOf(client, before);
      }
    }
  }

  predicate Monotone(ts: seq<real>) { forall i, j :: 0 <= i < j < |ts| ==> ts[i] <= ts[j] }

  /** Sensible limits. */
  predicate Fair(l: Limits) { l.capacity >= 1.0 && l.refill >= 0.0 }

  lemma {:induction false} TokensInRange(l: Limits, ts: seq<real>)
    requires Fair(l) && Monotone(ts) && ts != []
    ensures var b := BucketAfter(l, ts).value; 0.0 <= b.tokens <= l.capacity && b.lastRefill == ts[|ts| - 1]
  {
    hide Gain;
    var before := ts[..|ts| - 1];
    if before != [] {
      TokensInRange(l, before);
      Gains(l, ts[|ts| - 1] - ts[|ts| - 2], 0.0);
    }
  }

  /** How many of the requests `i..j` are admitted. */
  function AdmittedIn(l: Limits, ts: seq<real>, i: nat, j: nat): nat
    requires i <= j <= |ts|
  {
    if i == j then 0 else AdmittedIn(l, ts, i, j - 1) + if Admitted(l, ts, j - 1) then 1 else 0
  }

  /** What the requests `i..j` were given and what is left never exceeds a full bucket and the refill. */
  lemma {:induction false} Spent(l: Limits, ts: seq<real>, i: nat, j: nat)
    requires Fair(l) && Monotone(ts) && i < j <= |ts|
    ensures AdmittedIn(l, ts, i, j) as real + BucketAfter(l, ts[..j]).value.tokens <= l.capacity + Gain(l, ts[j - 1] - ts[i])
  {
    hide Gain;
    assert ts[..j][..j - 1] == ts[..j - 1];
    if j > 1 { TokensInRange(l, ts[..j - 1]); }
    if i < j - 1 {
      Spent(l, ts, i, j - 1);
      assert ts[j - 1] - ts[i] == (ts[j - 2] - ts[i]) + (ts[j - 1] - ts[j - 2]);
      Gains(l, ts[j - 2] - ts[i], ts[j - 1] - ts[j - 2]);
      Gains(l, ts[j - 1] - ts[j - 2], 0.0);
    } else {
      Gains(l, 0.0, 0.0);
      assert AdmittedIn(l, ts, i, i) == 0;
    }
  }

  /** In every window of length `t` a client gets at most a burst and the refill of the window. */
  lemma WindowBound(l: Limits, ts: seq<real>, i: nat, j: nat, t: real)
    requires Fair(l) && Monotone(ts) && i < j <= |ts| && ts[j - 1] - ts[i] <= t
    ensures AdmittedIn(l, ts, i, j) as real <= l.capacity + Gain(l, t)
  {
    hide Gain;
    Spent(l, ts, i, j);
    TokensInRange(l, ts[..j]);
    var rest := t - (ts[j - 1] - ts[i]);
    assert t == rest + (ts[j - 1] - ts[i]);
    Gains(l, rest, ts[j - 1] - ts[i]);
  }

  /** Within `t` seconds, the requests `i..j` of a client are given no more than that. */
  ghost predicate WindowOk(l: Limits, ts: seq<real>, i: nat, j: nat, t: real) {
    Monotone(ts) && i < j <= |ts| && ts[j - 1] - ts[i] <= t ==> AdmittedIn(l, ts, i, j) as real <= l.capacity + Gain(l, t)
  }

  /** The bound needs a capacity of at least one token, and no more: a new client is admitted unconditionally. */
  lemma BoundedExactly(l: Limits)
    requires l.refill >= 0.0
    ensures (forall ts, i: nat, j: nat, t :: WindowOk(l, ts, i, j, t)) <==> l.capacity >= 1.0
  {
    hide Gain;
    if l.capacity >= 1.0 {
      forall ts, i: nat, j: nat, t ensures WindowOk(l, ts, i, j, t) {
        if Monotone(ts) && i < j <= |ts| && ts[j - 1] - ts[i] <= t { WindowBound(l, ts, i, j, t); }
      }
    } else {
      var ts := [0.0];
      assert ts[..0] == [];
      assert AdmittedIn(l, ts, 0, 1) == AdmittedIn(l, ts, 0, 0) + 1;
      Gains(l, 0.0, 0.0);
      assert !WindowOk(l, ts, 0, 1, 0.0);
    }
  }

  /** A request at least 1/refill seconds after the client's previous one is admitted. */
  lemma SpacedAdmitted(l: Limits, ts: seq<real>, k: nat)
    requires Fair(l) && Monotone(ts) && 0 < k < |ts| && Gain(l, ts[k] - ts[k - 1]) >= 1.0
    ensures Admitted(l, ts, k)
  {
    TokensInRange(l, ts[..k]);
  }

  /** A rejection empties the bucket: the next request is admitted exactly if it comes 1/refill seconds later. */
  lemma AfterRejection(l: Limits, ts: seq<real>, k: nat)
    requires Fair(l) && Monotone(ts) && k + 1 < |ts| && !Admitted(l, ts, k)
    ensures Admitted(l, ts, k + 1) <==> Gain(l, ts[k + 1] - ts[k]) >= 1.0
  {
    assert ts[..k + 1][..k] == ts[..k];
  }

  /** So a client that keeps asking too fast is starved: every request is refused, for as long as it goes on. */
  lemma {:induction false} Starved(l: Limits, ts: seq<real>, k: nat, n: nat)
    requires Fair(l) && Monotone(ts) && k < |ts| && !Admitted(l, ts, k) && k <= n < |ts|
    requires forall m :: k < m <= n ==> Gain(l, ts[m] - ts[m - 1]) < 1.0
    ensures !Admitted(l, ts, n)
  {
    if n > k {
      Starved(l, ts, k, n - 1);
      AfterRejection(l, ts, n - 1);
    }
  }

  /** A burst of a new client: exactly the first `capacity` requests (rounded down) are admitted. */
  lemma {:induction false} Burst(l: Limits, ts: seq<real>, k: nat)
    requires Fair(l) && k < |ts| && forall m :: 0 <= m < |ts| ==> ts[m] == ts[0]
    ensures Admitted(l, ts, k) <==> (k + 1) as real <= l.capacity
    ensures Admitted(l, ts, k) ==> BucketAfter(l, ts[..k + 1]) == Some(Bucket(l.capacity - (k + 1) as real, ts[0]))
  {
    hide Gain;
    Gains(l, 0.0, 0.0);
    assert ts[..k + 1][..k] == ts[..k];
    if k > 0 {
      Burst(l, ts, k - 1);
      if !Admitted(l, ts, k - 1) { AfterRejection(l, ts, k - 1); }
    }
  }

  // ---- exactly which requests are admitted ------------------------------------------------

  /** What request `k` finds in the bucket. */
  function Found(l: Limits, ts: seq<real>, k: nat): real
    requires k < |ts|
  {
    var b := BucketAfter(l, ts[..k]);
    if b.None? then l.capacity else Refilled(l, b.value, ts[k])
  }

  /** A full bucket at request `j`, refilled since, less one token for each request from `j` up to `k`. */
  function Left(l: Limits, ts: seq<real>, j: nat, k: nat): real
    requires j <= k < |ts|
  {
    l.capacity + Gain(l, ts[k] - ts[j]) - (k - j) as real
  }

  /** From request `s` on, which finds `x`, and as long as all are admitted, a request finds the least of what is left since any moment. */
  lemma {:induction false} FoundIsLeast(l: Limits, ts: seq<real>, s: nat, k: nat)
    requires Fair(l) && s <= k < |ts| && forall m :: s <= m < k ==> Admitted(l, ts, m)
    ensures Found(l, ts, k) <= Found(l, ts, s) + Gain(l, ts[k] - ts[s]) - (k - s) as real
    ensures forall j :: s < j <= k ==> Found(l, ts, k) <= Left(l, ts, j, k)
    ensures Found(l, ts, k) == Found(l, ts, s) + Gain(l, ts[k] - ts[s]) - (k - s) as real
      || exists j :: s < j <= k && Found(l, ts, k) == Left(l, ts, j, k)
  {
    hide Gain;
    Gains(l, 0.0, 0.0);
    if s < k {
      FoundIsLeast(l, ts, s, k - 1);
      var g := Gain(l, ts[k] - ts[k - 1]);
      FoundNext(l, ts, k - 1);
      assert ts[k] - ts[s] == (ts[k - 1] - ts[s]) + (ts[k] - ts[k - 1]);
      Gains(l, ts[k - 1] - ts[s], ts[k] - ts[k - 1]);
      forall j | s < j < k ensures Left(l, ts, j, k) == Left(l, ts, j, k - 1) + g - 1.0 { LeftNext(l, ts, j, k - 1); }
      assert Left(l, ts, k, k) == l.capacity;
      if Found(l, ts, k) != l.capacity
        && Found(l, ts, k - 1) != Found(l, ts, s) + Gain(l, ts[k - 1] - ts[s]) - (k - 1 - s) as real {
        var j :| s < j <= k - 1 && Found(l, ts, k - 1) == Left(l, ts, j, k - 1);
        assert Found(l, ts, k) == Left(l, ts, j, k);
      }
    }
  }

  lemma LeftNext(l: Limits, ts: seq<real>, j: nat, k: nat)
    requires Fair(l) && j <= k && k + 1 < |ts|
    ensures Left(l, ts, j, k + 1) == Left(l, ts, j, k) + Gain(l, ts[k + 1] - ts[k]) - 1.0
  {
    hide Gain;
    assert ts[k + 1] - ts[j] == (ts[k] - ts[j]) + (ts[k + 1] - ts[k]);
    Gains(l, ts[k] - ts[j], ts[k + 1] - ts[k]);
  }

  /** What an admitted request leaves is what the next one finds, refilled up to the capacity. */
  lemma FoundNext(l: Limits, ts: seq<real>, k: nat)
    requires Fair(l) && k + 1 < |ts| && Admitted(l, ts, k)
    ensures Found(l, ts, k + 1) == Min(l.capacity, Found(l, ts, k) - 1.0 + Gain(l, ts[k + 1] - ts[k]))
  {
    hide Gain;
    assert ts[..k + 1][..k] == ts[..k];
  }

  /**
   * Until a client is refused for the first time, request `k` is admitted if and only if, counted
   * from every request `j` up to it, a full bucket and the refill since cover the requests between.
   */
  lemma AdmittedExactly(l: Limits, ts: seq<real>, k: nat)
    requires Fair(l) && k < |ts| && forall m :: 0 <= m < k ==> Admitted(l, ts, m)
    ensures Admitted(l, ts, k) <==> forall j :: 0 <= j <= k ==> l.capacity + Gain(l, ts[k] - ts[j]) - (k - j) as real >= 1.0
  {
    hide Gain;
    FoundIsLeast(l, ts, 0, k);
    assert ts[..0] == [];
    assert Found(l, ts, 0) + Gain(l, ts[k] - ts[0]) - (k - 0) as real == Left(l, ts, 0, k);
    assert Admitted(l, ts, k) <==> Found(l, ts, k) >= 1.0;
    forall j | 0 <= j <= k ensures Found(l, ts, k) <= Left(l, ts, j, k) { }
    if Admitted(l, ts, k) {
      forall j | 0 <= j <= k ensures l.capacity + Gain(l, ts[k] - ts[j]) - (k - j) as real >= 1.0 {
        assert Found(l, ts, k) <= Left(l, ts, j, k);
      }
    }
  }

  /** After a refusal at `r` the count starts from an empty bucket: the refill since `r` has to cover the requests since as well. */
  lemma AdmittedAfterRefusal(l: Limits, ts: seq<real>, r: nat, k: nat)
    requires Fair(l) && r < k < |ts| && !Admitted(l, ts, r) && forall m :: r < m < k ==> Admitted(l, ts, m)
    ensures Admitted(l, ts, k) <==>
      && Gain(l, ts[k] - ts[r]) - (k - r - 1) as real >= 1.0
      && forall j :: r < j <= k ==> l.capacity + Gain(l, ts[k] - ts[j]) - (k - j) as real >= 1.0
  {
    hide Gain;
    var s := r + 1;
    FoundIsLeast(l, ts, s, k);
    assert ts[..s][..r] == ts[..r];
    assert Found(l, ts, s) == Min(l.capacity, Gain(l, ts[s] - ts[r]));
    assert ts[k] - ts[r] == (ts[s] - ts[r]) + (ts[k] - ts[s]);
    Gains(l, ts[s] - ts[r], ts[k] - ts[s]);
    assert Admitted(l, ts, k) <==> Found(l, ts, k) >= 1.0;
    assert Found(l, ts, s) + Gain(l, ts[k] - ts[s]) - (k - s) as real
      == Min(Left(l, ts, s, k), Gain(l, ts[k] - ts[r]) - (k - r - 1) as real);
    if Admitted(l, ts, k) {
      forall j | r < j <= k ensures l.capacity + Gain(l, ts[k] - ts[j]) - (k - j) as real >= 1.0 {
        assert j == s || Found(l, ts, k) <= Left(l, ts, j, k);
      }
    }
  }

  /** In particular: while nothing is refused and the bucket is never refilled to the capacity, only the first request counts. */
  lemma AdmittedWhileDraining(l: Limits, ts: seq<real>, k: nat)
    requires Fair(l) && k < |ts| && forall m :: 0 <= m < k ==> Admitted(l, ts, m)
    requires forall j :: 0 < j <= k ==> Gain(l, ts[j] - ts[0]) <= j as real
    ensures Admitted(l, ts, k) <==> l.capacity + Gain(l, ts[k] - ts[0]) - k as real >= 1.0
  {
    hide Gain;
    AdmittedExactly(l, ts, k);
    forall j | 0 <= j <= k ensures l.capacity + Gain(l, ts[k] - ts[j]) - (k - j) as real >= l.capacity + Gain(l, ts[k] - ts[0]) - k as real {
      assert ts[k] - ts[0] == (ts[j] - ts[0]) + (ts[k] - ts[j]);
      Gains(l, ts[j] - ts[0], ts[k] - ts[j]);
      Gains(l, 0.0, 0.0);
    }
  }
}
