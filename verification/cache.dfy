/** `getCached` (lib/cache.ts): a time-stamped cache of one producer's value,
    kept in one file per key. The entry in the file is either `done`, holding
    a value, or `pending`, written by a caller that is producing the value
    right now. A reader that finds a fresh `done` entry returns its value; one
    that finds a fresh `pending` entry waits 500 ms and reads again; any other
    reader writes `pending`, calls the producer and writes `done`.

    The files are a map from file name to entry. The clock is an input: one
    reading per poll of the file (`clock[i]` is the time of the i-th read),
    plus the reading taken when the value is written (`doneAt`). The producer
    is an input too: the outcome its single call would give. The source polls
    without a bound; here the wait ends when the clock readings run out. */
module Cache {
  import opened Types

  datatype CacheEntry<V> = Done(expiresAt: int, value: V) | Pending(expiresAt: int)

  /** How long a `pending` entry holds off other readers. */
  const PendingTimeoutMs: int := 10000

  /** The wait between two reads of a `pending` entry. */
  const PollIntervalMs: int := 500

  /** The file holding the entry for a key whose SHA-1 digest is `digest`. */
  function CacheFileName(digest: string): (name: string)
    ensures |name| == |digest| + 19
    ensures name[14..14 + |digest|] == digest
  {
    "./jgdev-cache-" + digest + ".json"
  }

  /** Expiry is strict: at `now == expiresAt` the entry is still fresh. */
  predicate HasExpired<V>(entry: CacheEntry<V>, now: int)
    ensures now <= entry.expiresAt ==> !HasExpired(entry, now)
    ensures now > entry.expiresAt ==> HasExpired(entry, now)
  {
    now > entry.expiresAt
  }

  /** Once an entry has expired it stays expired as the clock moves on. */
  lemma ExpiryIsFinal<V>(entry: CacheEntry<V>, now: int, later: int)
    requires HasExpired(entry, now) && now <= later
    ensures HasExpired(entry, later)
  {
  }

  function Lookup<V>(files: map<string, CacheEntry<V>>, name: string): Option<CacheEntry<V>> {
    if name in files then Some(files[name]) else None
  }

  /** What `getValue` does with the entry it just read. */
  datatype Decision = Hit | Wait | Revalidate

  function Decide<V>(entry: Option<CacheEntry<V>>, now: int): (d: Decision)
    ensures d == Hit <==> entry.Some? && entry.value.Done? && now <= entry.value.expiresAt
    ensures d == Wait <==> entry.Some? && entry.value.Pending? && now <= entry.value.expiresAt
    ensures d == Revalidate <==> entry.None? || HasExpired(entry.value, now)
  {
    if entry.Some? && entry.value.Done? && !HasExpired(entry.value, now) then Hit
    else if entry.Some? && entry.value.Pending? && !HasExpired(entry.value, now) then Wait
    else Revalidate
  }

  /** The observable steps of one `getCached` call, in order. */
  datatype Effect<V> = ReadFile(name: string) | WriteFile(name: string, entry: CacheEntry<V>) | CallProducer

  /** The outcome of one call: what it returns, the files afterwards, and its steps. */
  datatype Run<V> = Run(result: Result<V>, files: map<string, CacheEntry<V>>, effects: seq<Effect<V>>)

  function Reads<V>(name: string, n: nat): (e: seq<Effect<V>>)
    ensures |e| == n && forall i :: 0 <= i < n ==> e[i] == ReadFile(name)
  {
    seq(n, _ => ReadFile(name))
  }

  /** The index of the first poll that does not wait, or |clock| when every poll waits. */
  function FirstDecisive<V>(entry: Option<CacheEntry<V>>, clock: seq<int>): (k: nat)
    ensures k <= |clock|
    ensures forall i :: 0 <= i < k ==> Decide(entry, clock[i]) == Wait
    ensures k < |clock| ==> Decide(entry, clock[k]) != Wait
  {
    if clock == [] || Decide(entry, clock[0]) != Wait then 0
    else 1 + FirstDecisive(entry, clock[1..])
  }

  /** `revalidate`: write `pending`, call the producer, and on success write `done`. */
  function RevalidateSpec<V>(files: map<string, CacheEntry<V>>, name: string, now: int,
                             produced: Result<V>, doneAt: int, ttl: int): Run<V>
  {
    var pending := Pending(now + PendingTimeoutMs);
    match produced
    case Success(v) =>
      Run(Success(v), files[name := Done(doneAt + ttl, v)],
          [WriteFile(name, pending), CallProducer, WriteFile(name, Done(doneAt + ttl, v))])
    case Failure(e) =>
      Run(Failure(e), files[name := pending], [WriteFile(name, pending), CallProducer])
  }

  /** `getValue`, specified on values. */
  function GetValueSpec<V>(files: map<string, CacheEntry<V>>, name: string, clock: seq<int>,
                           produced: Result<V>, doneAt: int, ttl: int): Run<V>
  {
    var entry := Lookup(files, name);
    var k := FirstDecisive(entry, clock);
    if k == |clock| then
      Run(Failure(PollsExhausted), files, Reads(name, k))
    else if Decide(entry, clock[k]) == Hit then
      Run(Success(entry.value.value), files, Reads(name, k + 1))
    else
      var rv := RevalidateSpec(files, name, clock[k], produced, doneAt, ttl);
      Run(rv.result, rv.files, Reads(name, k + 1) + rv.effects)
  }

  /** A fresh `done` entry is returned as stored: one read, no write, no producer call. */
  lemma FreshDoneIsHit<V>(files: map<string, CacheEntry<V>>, name: string, clock: seq<int>,
                          produced: Result<V>, doneAt: int, ttl: int)
    requires |clock| > 0 && name in files && files[name].Done?
    requires clock[0] <= files[name].expiresAt
    ensures GetValueSpec(files, name, clock, produced, doneAt, ttl)
            == Run(Success(files[name].value), files, [ReadFile(name)])
  {
  }

  /** A fresh `pending` entry: the call reads, waits and starts over; that step writes nothing
      and does not call the producer. */
  lemma FreshPendingWaits<V>(files: map<string, CacheEntry<V>>, name: string, clock: seq<int>,
                             produced: Result<V>, doneAt: int, ttl: int)
    requires |clock| > 0 && name in files && files[name].Pending?
    requires clock[0] <= files[name].expiresAt
    ensures var run := GetValueSpec(files, name, clock, produced, doneAt, ttl);
            var later := GetValueSpec(files, name, clock[1..], produced, doneAt, ttl);
            run.result == later.result && run.files == later.files
            && run.effects == [ReadFile(name)] + later.effects
  {
    var entry := Lookup(files, name);
    var k := FirstDecisive(entry, clock[1..]);
    assert FirstDecisive(entry, clock) == k + 1;
    assert Reads<V>(name, k + 1) == [ReadFile(name)] + Reads<V>(name, k);
    assert Reads<V>(name, k + 2) == [ReadFile(name)] + Reads<V>(name, k + 1);
  }

  /** An absent entry, an expired `done` entry and an expired `pending` entry are all
      revalidated: a `pending` write, then the one producer call, then (on success only)
      the `done` write; the call returns what the producer gave. */
  lemma MissingOrExpiredRevalidates<V>(files: map<string, CacheEntry<V>>, name: string, clock: seq<int>,
                                       produced: Result<V>, doneAt: int, ttl: int)
    requires |clock| > 0
    requires name !in files || HasExpired(files[name], clock[0])
    ensures var run := GetValueSpec(files, name, clock, produced, doneAt, ttl);
            var pending := Pending(clock[0] + PendingTimeoutMs);
            && run.result == produced
            && |run.effects| >= 3
            && run.effects[..3] == [ReadFile(name), WriteFile(name, pending), CallProducer]
            && (produced.Success? ==>
                  var done := Done(doneAt + ttl, produced.value);
                  run.files == files[name := done] && run.effects[3..] == [WriteFile(name, done)])
            && (produced.Failure? ==> run.files == files[name := pending] && |run.effects| == 3)
  {
    assert FirstDecisive(Lookup(files, name), clock) == 0;
  }

  /** Whatever is in the file and whatever the clock says, one call reads and writes only
      the file of its own key, calls the producer at most once, and only right after
      writing `pending` to that file. */
  lemma ProducerCalledAtMostOnce<V>(files: map<string, CacheEntry<V>>, name: string, clock: seq<int>,
                                    produced: Result<V>, doneAt: int, ttl: int)
    ensures var run := GetValueSpec(files, name, clock, produced, doneAt, ttl);
            var e := run.effects;
            && (forall i :: 0 <= i < |e| && !e[i].CallProducer? ==> e[i].name == name)
            && (forall other :: other != name ==> Lookup(run.files, other) == Lookup(files, other))
            && (forall i, j :: 0 <= i < j < |e| && e[i].CallProducer? ==> !e[j].CallProducer?)
            && (forall i :: 0 <= i < |e| && e[i].CallProducer? ==>
                  0 < i && e[i - 1].WriteFile? && e[i - 1].name == name && e[i - 1].entry.Pending?)
  {
    var entry := Lookup(files, name);
    var k := FirstDecisive(entry, clock);
    if k < |clock| && Decide(entry, clock[k]) == Revalidate {
      var rv := RevalidateSpec(files, name, clock[k], produced, doneAt, ttl);
      var e := Reads<V>(name, k + 1) + rv.effects;
      forall i | 0 <= i < |e| && e[i].CallProducer?
        ensures i == k + 2
      {
        if i >= k + 1 {
          assert e[i] == rv.effects[i - (k + 1)];
        }
      }
    }
  }

  /** Single flight: once a call has produced `v`, a later call that reads the file
      before `v` expires gets `v` back without calling the producer. */
  lemma ProducedValueServedUntilExpiry<V>(files: map<string, CacheEntry<V>>, name: string, clock: seq<int>,
                                          v: V, doneAt: int, ttl: int,
                                          clock2: seq<int>, produced2: Result<V>, doneAt2: int, ttl2: int)
    requires CallProducer in GetValueSpec(files, name, clock, Success(v), doneAt, ttl).effects
    requires |clock2| > 0 && clock2[0] <= doneAt + ttl
    ensures var run := GetValueSpec(files, name, clock, Success(v), doneAt, ttl);
            && run.result == Success(v)
            && GetValueSpec(run.files, name, clock2, produced2, doneAt2, ttl2)
               == Run(Success(v), run.files, [ReadFile(name)])
  {
    var entry := Lookup(files, name);
    var k := FirstDecisive(entry, clock);
    var run := GetValueSpec(files, name, clock, Success(v), doneAt, ttl);
    if k == |clock| || Decide(entry, clock[k]) == Hit {
      assert false;
    }
    assert run.files[name] == Done(doneAt + ttl, v);
  }

  /** A failing producer leaves a `pending` entry: later calls wait on it until
      PendingTimeoutMs have passed, after which the next call produces again. */
  lemma FailedProductionRetriedAfterTimeout<V>(files: map<string, CacheEntry<V>>, name: string, clock: seq<int>,
                                               e: Error, doneAt: int, ttl: int,
                                               clock2: seq<int>, produced2: Result<V>, doneAt2: int, ttl2: int)
    requires |clock| > 0 && (name !in files || HasExpired(files[name], clock[0]))
    requires |clock2| > 0
    ensures var run := GetValueSpec(files, name, clock, Failure(e), doneAt, ttl);
            var run2 := GetValueSpec(run.files, name, clock2, produced2, doneAt2, ttl2);
            && run.result == Failure(e)
            && Lookup(run.files, name) == Some(Pending(clock[0] + PendingTimeoutMs))
            && (clock2[0] <= clock[0] + PendingTimeoutMs ==> Decide(Lookup(run.files, name), clock2[0]) == Wait)
            && (clock2[0] > clock[0] + PendingTimeoutMs ==> CallProducer in run2.effects)
  {
    MissingOrExpiredRevalidates(files, name, clock, Failure(e), doneAt, ttl);
    var run := GetValueSpec(files, name, clock, Failure(e), doneAt, ttl);
    if clock2[0] > clock[0] + PendingTimeoutMs {
      MissingOrExpiredRevalidates(run.files, name, clock2, produced2, doneAt2, ttl2);
      var run2 := GetValueSpec(run.files, name, clock2, produced2, doneAt2, ttl2);
      assert run2.effects[2] == CallProducer;
    }
  }

  /** Reads at least PollIntervalMs apart: the model of `await wait(500)`. */
  ghost predicate PollsSpaced(clock: seq<int>) {
    forall i :: 0 < i < |clock| ==> clock[i] >= clock[i - 1] + PollIntervalMs
  }

  lemma {:induction false} PollsSpacedSpread(clock: seq<int>, n: nat)
    requires PollsSpaced(clock) && n < |clock|
    ensures clock[n] >= clock[0] + PollIntervalMs * n
  {
    if n > 0 {
      PollsSpacedSpread(clock, n - 1);
    }
  }

  /** The number of reads after which a `pending` entry that expires at `expiresAt`
      is certainly expired, when the first read is at `first`. */
  function PollsToOutwait(expiresAt: int, first: int): (n: nat)
    ensures first + PollIntervalMs * n > expiresAt
  {
    if expiresAt < first then 0 else (expiresAt - first) / PollIntervalMs + 1
  }

  /** The wait on a `pending` entry ends: with reads spaced as `wait(500)` spaces them,
      and no other writer, the call produces once the entry's timeout has passed. */
  lemma PendingWaitEnds<V>(files: map<string, CacheEntry<V>>, name: string, clock: seq<int>,
                           produced: Result<V>, doneAt: int, ttl: int)
    requires name in files && files[name].Pending?
    requires PollsSpaced(clock) && |clock| > 0
    requires |clock| > PollsToOutwait(files[name].expiresAt, clock[0])
    ensures CallProducer in GetValueSpec(files, name, clock, produced, doneAt, ttl).effects
  {
    var entry := Lookup(files, name);
    var n := PollsToOutwait(files[name].expiresAt, clock[0]);
    PollsSpacedSpread(clock, n);
    assert Decide(entry, clock[n]) == Revalidate;
    var k := FirstDecisive(entry, clock);
    assert k <= n;
    assert Decide(entry, clock[k]) == Revalidate;
    var run := GetValueSpec(files, name, clock, produced, doneAt, ttl);
    assert run.effects[k + 2] == CallProducer;
  }

  /** The cache files of one process, with the log of what was done to them. */
  class FileCache<V> {
    var files: map<string, CacheEntry<V>>
    ghost var trace: seq<Effect<V>>

    constructor (initial: map<string, CacheEntry<V>>)
      ensures files == initial && trace == []
    {
      files := initial;
      trace := [];
    }

    /** `getEntry`: a missing file reads as no entry. */
    method ReadEntry(name: string) returns (entry: Option<CacheEntry<V>>)
      modifies this`trace
      ensures entry == Lookup(files, name)
      ensures trace == old(trace) + [ReadFile(name)]
    {
      entry := if name in files then Some(files[name]) else None;
      trace := trace + [ReadFile(name)];
    }

    /** `writePendingEntry`: overwrites whatever the file held. */
    method WritePendingEntry(name: string, now: int)
      modifies this
      ensures files == old(files)[name := Pending(now + PendingTimeoutMs)]
      ensures trace == old(trace) + [WriteFile(name, Pending(now + PendingTimeoutMs))]
    {
      files := files[name := Pending(now + PendingTimeoutMs)];
      trace := trace + [WriteFile(name, Pending(now + PendingTimeoutMs))];
    }

    /** `writeEntry`: overwrites whatever the file held. */
    method WriteEntry(name: string, value: V, now: int, ttl: int)
      modifies this
      ensures files == old(files)[name := Done(now + ttl, value)]
      ensures trace == old(trace) + [WriteFile(name, Done(now + ttl, value))]
    {
      files := files[name := Done(now + ttl, value)];
      trace := trace + [WriteFile(name, Done(now + ttl, value))];
    }

    /** `revalidate`. A failing producer leaves the `pending` entry in place. */
    method Revalidate(name: string, now: int, produced: Result<V>, doneAt: int, ttl: int)
      returns (r: Result<V>)
      modifies this
      ensures var rv := RevalidateSpec(old(files), name, now, produced, doneAt, ttl);
              r == rv.result && files == rv.files && trace == old(trace) + rv.effects
    {
      WritePendingEntry(name, now);
      trace := trace + [CallProducer];
      if produced.Failure? {
        return produced;
      }
      WriteEntry(name, produced.value, doneAt, ttl);
      r := produced;
    }

    /** `getValue`: poll until the entry is fresh `done` or needs producing. */
    method GetValue(name: string, clock: seq<int>, produced: Result<V>, doneAt: int, ttl: int)
      returns (r: Result<V>)
      modifies this
      ensures var run := GetValueSpec(old(files), name, clock, produced, doneAt, ttl);
              r == run.result && files == run.files && trace == old(trace) + run.effects
    {
      ghost var entry0 := Lookup(files, name);
      var i := 0;
      while i < |clock|
        invariant 0 <= i <= |clock|
        invariant files == old(files)
        invariant forall j :: 0 <= j < i ==> Decide(entry0, clock[j]) == Wait
        invariant trace == old(trace) + Reads(name, i)
      {
        var entry := ReadEntry(name);
        assert Reads<V>(name, i) + [ReadFile(name)] == Reads<V>(name, i + 1);
        if entry.Some? {
          if entry.value.Done? && !HasExpired(entry.value, clock[i]) {
            return Success(entry.value.value);
          } else if entry.value.Pending? && !HasExpired(entry.value, clock[i]) {
            i := i + 1;  // wait(PollIntervalMs)
            continue;
          }
        }
        r := Revalidate(name, clock[i], produced, doneAt, ttl);
        return;
      }
      r := Failure(PollsExhausted);
    }

    /** `getCached(key, fn, cacheDurationMs)`: the file name comes from the key's digest. */
    method GetCached(key: string, sha: string -> string, clock: seq<int>,
                     produced: Result<V>, doneAt: int, cacheDurationMs: int)
      returns (r: Result<V>)
      modifies this
      ensures var run := GetValueSpec(old(files), CacheFileName(sha(key)), clock, produced, doneAt, cacheDurationMs);
              r == run.result && files == run.files && trace == old(trace) + run.effects
    {
      r := GetValue(CacheFileName(sha(key)), clock, produced, doneAt, cacheDurationMs);
    }
  }
}
