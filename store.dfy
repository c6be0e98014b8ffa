/** The in-memory result store: formatted results kept under an opaque id,
    each stamped with the time it was stored, and swept once older than one
    hour. Times are nanosecond counts; the id and the current time are
    parameters (they come from crypto/rand and time.Now in the program). */
module Store {

  /** time.Hour, in nanoseconds. */
  const Hour: int := 3_600_000_000_000

  /** One stored submission: the formatted text or the error shown for it,
      whether there is a result, the input as pasted, and the time stored. */
  datatype ResultData = ResultData(
    formattedEnvelope: string,
    error: string,
    hasResult: bool,
    envelope: string,
    timestamp: int)

  /** The zero value Go's map lookup yields for a missing id. */
  const Missing := ResultData("", "", false, "", 0)

  /** An entry is expired at `now` when it was stored strictly before
      now - 1h. */
  predicate Expired(data: ResultData, now: int) {
    data.timestamp < now - Hour
  }

  /** The entries a sweep at `now` keeps: exactly the unexpired ones. */
  function Sweep(entries: map<string, ResultData>, now: int): map<string, ResultData>
  {
    map id | id in entries && !Expired(entries[id], now) :: entries[id]
  }

  /** A sweep at `now` removes the expired entries and nothing else, and
      leaves every kept entry as it was. */
  lemma SweepExactly(entries: map<string, ResultData>, now: int)
    ensures Sweep(entries, now).Keys == entries.Keys - set id | id in entries && Expired(entries[id], now)
    ensures forall id :: id in Sweep(entries, now) ==> Sweep(entries, now)[id] == entries[id]
  {
  }

  /** A second sweep at the same time changes nothing. */
  lemma SweepIdempotent(entries: map<string, ResultData>, now: int)
    ensures Sweep(Sweep(entries, now), now) == Sweep(entries, now)
  {
  }

  /** An earlier sweep is subsumed by a later one. */
  lemma SweepThenLaterSweep(entries: map<string, ResultData>, earlier: int, later: int)
    requires earlier <= later
    ensures Sweep(Sweep(entries, earlier), later) == Sweep(entries, later)
  {
  }

  /** An entry stored at t survives every sweep at a time up to t + 1h. */
  lemma StoredEntrySurvives(entries: map<string, ResultData>, id: string, data: ResultData, t: int, now: int)
    requires now <= t + Hour
    ensures var stored := entries[id := data.(timestamp := t)];
            id in Sweep(stored, now) && Sweep(stored, now)[id] == data.(timestamp := t)
  {
  }

  /** The shared result store. */
  class ResultStore {
    var entries: map<string, ResultData>

    constructor ()
      ensures entries == map[]
    {
      entries := map[];
    }

    /** getResult: the entry stored under id and true, or the zero value and
        false when there is none. */
    function GetResult(id: string): (r: (ResultData, bool))
      reads this
      ensures r.1 <==> id in entries
      ensures r.1 ==> r.0 == entries[id]
      ensures !r.1 ==> r.0 == Missing
    {
      if id in entries then (entries[id], true) else (Missing, false)
    }

    /** storeResult: records data under id, stamped with `now`, and returns
        the id; every other entry is unchanged. */
    method StoreResult(data: ResultData, id: string, now: int) returns (stored: string)
      modifies this
      ensures stored == id
      ensures entries == old(entries)[id := data.(timestamp := now)]
      ensures GetResult(id) == (data.(timestamp := now), true)
      ensures forall other :: other != id ==> GetResult(other) == old(GetResult(other))
    {
      entries := entries[id := data.(timestamp := now)];
      stored := id;
    }

    /** cleanupOldResults: visits every entry and deletes those stored
        strictly before now - 1h. */
    method CleanupOldResults(now: int)
      modifies this
      ensures entries == Sweep(old(entries), now)
    {
      var cutoff := now - Hour;
      var pending := entries.Keys;
      ghost var before := entries;
      while pending != {}
        invariant pending <= before.Keys
        invariant entries.Keys <= before.Keys
        invariant forall id :: id in entries ==> entries[id] == before[id]
        invariant forall id :: id in before && id in pending ==> id in entries
        invariant forall id :: id in before && id !in pending ==>
                    (id in entries <==> !Expired(before[id], now))
        decreases pending
      {
        var id :| id in pending;
        if entries[id].timestamp < cutoff {
          entries := entries - {id};
        }
        pending := pending - {id};
      }
    }
  }
}
