/** Claims over every interleaving. Each transaction on the record table is atomic, but any number of
    jobs may be between their transactions: a claim may follow from a decision made at any earlier
    time, or from none. What is promised here rests on the claim transaction alone. */
module ClaimRuns {
  import opened Options
  import opened Text
  import opened ReviewState

  datatype Tx =
    | Migration(key: string, now: int)
    | Lock(key: string, commit: string, now: int)
    | Claiming(key: string, record: Record, now: int)
    | Write(key: string, record: Record, now: int)     // a completion, a failure or a skip
    | Recovery(now: int)

  /** A claim that was granted, and the time of the claim it overtook, if that was still open. */
  datatype Grant = Grant(key: string, at: int, overtook: Option<int>)

  datatype Table = Table(
    records: map<string, Record>,
    clock: int,
    open: map<string, int>,       // claims with no write or recovery since, by the time of the last one
    grants: seq<Grant>)

  predicate Enabled(t: Table, x: Tx) {
    && t.clock <= x.now
    && (x.Write? ==> !x.record.status.InProgress? && x.record.timestamp <= x.now)
  }

  function Granted(t: Table, key: string, claim: Option<Record>, now: int): Table {
    match claim
    case None => t.(clock := now)
    case Some(r) =>
      var overtook := if key in t.open then Some(t.open[key]) else None;
      Table(t.records[key := r], now, t.open[key := now], t.grants + [Grant(key, now, overtook)])
  }

  function Migrated(records: map<string, Record>, key: string, now: int): map<string, Record> {
    var r := Migrate(Lookup(records, key), key, now);
    if r.Some? then records[key := r.value] else records
  }

  function Apply(stale: nat, t: Table, x: Tx): Table
    requires Enabled(t, x)
  {
    match x
    case Migration(key, now) => t.(records := Migrated(t.records, key, now), clock := now)
    case Lock(key, commit, now) => Granted(t, key, Claim(Lookup(t.records, key), commit, stale, now), now)
    case Claiming(key, record, now) => Granted(t, key, TryClaimed(Lookup(t.records, key), record, stale, now), now)
    case Write(key, record, now) =>
      t.(records := t.records[key := Completed(Lookup(t.records, key), record)], clock := now, open := t.open - {key})
    case Recovery(now) => t.(records := RecoveredAll(t.records, now), clock := now, open := map[])
  }

  predicate Legal(stale: nat, t: Table, xs: seq<Tx>)
    decreases |xs|
  {
    xs == [] || (Enabled(t, xs[0]) && Legal(stale, Apply(stale, t, xs[0]), xs[1..]))
  }

  function Exec(stale: nat, t: Table, xs: seq<Tx>): Table
    requires Legal(stale, t, xs)
    decreases |xs|
  {
    if xs == [] then t else Exec(stale, Apply(stale, t, xs[0]), xs[1..])
  }

  predicate Spaced(stale: nat, g: Grant) {
    g.overtook.Some? ==> g.at - g.overtook.value > stale
  }

  ghost predicate Exclusive(stale: nat, t: Table) {
    && (forall k :: k in t.open ==>
          && t.open[k] <= t.clock
          && k in t.records && t.records[k].status.InProgress? && t.records[k].timestamp == t.open[k])
    && (forall i :: 0 <= i < |t.grants| ==> Spaced(stale, t.grants[i]))
  }

  /** A claim is granted over an open one only when that one is stale. */
  lemma GrantKeeps(stale: nat, t: Table, key: string, claim: Option<Record>, now: int)
    requires Exclusive(stale, t) && t.clock <= now
    requires claim.Some? ==> claim.value.status.InProgress? && claim.value.timestamp == now
    requires claim.Some? && key in t.records ==> !HoldsClaim(t.records[key], stale, now)
    ensures Exclusive(stale, Granted(t, key, claim, now))
  {
    if claim.Some? && key in t.open {
      assert t.records[key].status.InProgress? && AsU64(now - t.open[key]) > stale;
      assert AsU64(now - t.open[key]) <= now - t.open[key];
    }
  }

  lemma MigrationKeeps(stale: nat, t: Table, key: string, now: int)
    requires Exclusive(stale, t) && t.clock <= now
    ensures Exclusive(stale, t.(records := Migrated(t.records, key, now), clock := now))
  {
  }

  lemma TxKeeps(stale: nat, t: Table, x: Tx)
    requires Exclusive(stale, t) && Enabled(t, x)
    ensures Exclusive(stale, Apply(stale, t, x))
  {
    match x {
      case Migration(key, now) => MigrationKeeps(stale, t, key, now);
      case Lock(key, commit, now) => GrantKeeps(stale, t, key, Claim(Lookup(t.records, key), commit, stale, now), now);
      case Claiming(key, record, now) =>
        GrantKeeps(stale, t, key, TryClaimed(Lookup(t.records, key), record, stale, now), now);
      case Write(_, _, _) =>
      case Recovery(_) =>
    }
  }

  /** Over every interleaving of transactions of any number of jobs and keys: of two claims of one
      key with no write or recovery between them, the second comes more than the stale window after
      the first, so jobs no longer than that never hold one key together. */
  lemma {:induction false} ClaimsAreExclusive(stale: nat, t: Table, xs: seq<Tx>)
    requires Exclusive(stale, t) && Legal(stale, t, xs)
    ensures Exclusive(stale, Exec(stale, t, xs))
    decreases |xs|
  {
    if xs != [] {
      TxKeeps(stale, t, xs[0]);
      ClaimsAreExclusive(stale, Apply(stale, t, xs[0]), xs[1..]);
    }
  }

  const AGE_LIMIT: int := 0x8000_0000_0000_0000

  /** When a claim, of either kind, is granted over a claim in progress: for ages and windows that fit
      63 bits, exactly when that claim is stale or dated ahead of the clock. */
  lemma ClaimIsGrantedIff(r: Record, commit: string, filled: Record, stale: nat, now: int)
    requires r.status.InProgress? && stale < AGE_LIMIT && -AGE_LIMIT <= now - r.timestamp < AGE_LIMIT
    ensures Claim(Some(r), commit, stale, now).Some? <==> now < r.timestamp || now - r.timestamp > stale
    ensures TryClaimed(Some(r), filled, stale, now).Some? <==> now < r.timestamp || now - r.timestamp > stale
  {
    var age := now - r.timestamp;
    if age < 0 {
      assert AsU64(age) == age + (U64_MAX + 1);
    } else {
      assert AsU64(age) == age;
    }
  }

  /** So the clock must not go back: then a live claim, however young, is overtaken. */
  lemma BackwardClockOvertakes(r: Record, commit: string, filled: Record, stale: nat, now: int)
    requires r.status.InProgress? && stale < AGE_LIMIT && now < r.timestamp <= now + AGE_LIMIT
    ensures Claim(Some(r), commit, stale, now).Some? && TryClaimed(Some(r), filled, stale, now).Some?
  {
    ClaimIsGrantedIff(r, commit, filled, stale, now);
  }
}
