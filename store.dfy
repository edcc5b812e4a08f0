/**
 * The `draw_results` table and the generation run `generate_numbers_for_time`.
 *
 * The table is keyed by (code, market); the unique constraint on that pair is
 * what makes a key hold at most one record, so the table is a map. A run
 * checks each market in the fixed order, builds a record for every market that
 * has none under the run's code, collects the new records in the session and
 * commits them together at the end.
 */
module Store {
  import opened DrawCode
  import opened DrawRecord

  /** The market alphabet, in the order a run visits it. */
  const Markets: string := "MPTSHEBKW"

  /** The unique key of a row: its draw code and its market. */
  type Key = (string, char)

  /** What every row written by the generator looks like. */
  predicate ValidRow(k: Key, r: Record) {
    WellFormedCode(k.0) && k.1 in Markets && WellFormedRecord(r)
  }

  /** The market symbols are pairwise distinct. */
  lemma MarketsDistinct()
    ensures |Markets| == 9 && Distinct(Markets)
  {
  }

  /** One valid sample per market of the alphabet, the i-th for the i-th market. */
  predicate ValidSamples(samples: seq<Sample>) {
    |samples| == |Markets| && forall i :: 0 <= i < |samples| ==> ValidSample(samples[i])
  }

  /** The record each market would get from its sample. */
  function Records(samples: seq<Sample>): (records: seq<Record>)
    requires ValidSamples(samples)
    ensures |records| == |Markets|
    ensures forall i :: 0 <= i < |records| ==> records[i] == MakeRecord(samples[i])
  {
    seq(|samples|, i requires 0 <= i < |samples| => MakeRecord(samples[i]))
  }

  /**
   * The session after a run for `code` has visited the first `n` symbols of
   * `markets`: for each one without a row in `rows`, the record prepared for it.
   */
  function Pending<V>(rows: map<Key, V>, code: string, markets: string, records: seq<V>, n: nat): (p: map<Key, V>)
    requires |records| == |markets| && n <= |markets|
  {
    if n == 0 then map[]
    else
      var p := Pending(rows, code, markets, records, n - 1);
      var key := (code, markets[n - 1]);
      if key in rows then p else p[key := records[n - 1]]
  }

  /** Every visited market that had no row gets the record prepared for it. */
  lemma {:induction false} PendingHas<V>(rows: map<Key, V>, code: string, markets: string, records: seq<V>, n: nat, j: nat)
    requires |records| == |markets| && j < n <= |markets| && Distinct(markets)
    requires (code, markets[j]) !in rows
    ensures var p := Pending(rows, code, markets, records, n);
      (code, markets[j]) in p && p[(code, markets[j])] == records[j]
  {
    if j < n - 1 {
      PendingHas(rows, code, markets, records, n - 1, j);
      assert markets[j] != markets[n - 1];
    }
  }

  /** The session holds only keys that were free, under `code`, for markets already visited. */
  lemma {:induction false} PendingOnly<V>(rows: map<Key, V>, code: string, markets: string, records: seq<V>, n: nat, k: Key)
    requires |records| == |markets| && n <= |markets|
    ensures k in Pending(rows, code, markets, records, n) ==> k !in rows && k.0 == code && k.1 in markets[..n]
  {
    if n > 0 && k in Pending(rows, code, markets, records, n) {
      if k in Pending(rows, code, markets, records, n - 1) {
        PendingOnly(rows, code, markets, records, n - 1, k);
        var i :| 0 <= i < n - 1 && markets[..n - 1][i] == k.1;
        assert markets[..n][i] == k.1;
      } else {
        assert markets[..n][n - 1] == k.1;
      }
    }
  }

  /** When none of the visited markets had a row, the session holds one record per visited market. */
  lemma {:induction false} PendingSize<V>(rows: map<Key, V>, code: string, markets: string, records: seq<V>, n: nat)
    requires |records| == |markets| && n <= |markets| && Distinct(markets)
    requires forall j :: 0 <= j < n ==> (code, markets[j]) !in rows
    ensures |Pending(rows, code, markets, records, n)| == n
  {
    if n > 0 {
      PendingSize(rows, code, markets, records, n - 1);
      var key := (code, markets[n - 1]);
      PendingOnly(rows, code, markets, records, n - 1, key);
      assert markets[n - 1] !in markets[..n - 1];
    }
  }

  /** The table after a run for `code` has committed. */
  function Run(rows: map<Key, Record>, code: string, samples: seq<Sample>): (r: map<Key, Record>)
    requires ValidSamples(samples)
    ensures rows.Keys <= r.Keys
  {
    rows + Pending(rows, code, Markets, Records(samples), |Markets|)
  }

  class DrawTable {
    var rows: map<Key, Record>

    /** Every row is one the generator could have written. */
    ghost predicate Valid()
      reads this
    {
      forall k :: k in rows ==> ValidRow(k, rows[k])
    }

    /** A newly created table: empty. */
    constructor ()
      ensures Valid() && rows == map[]
    {
      rows := map[];
    }

    /** `DrawResult.query.filter_by(code=code, market=market).first()` is not None. */
    method Exists(code: string, market: char) returns (found: bool)
      ensures found <==> (code, market) in rows
    {
      found := (code, market) in rows;
    }

    /**
     * `db.session.commit()`: the session's rows are inserted together, or,
     * when one of their keys is already taken, the unique constraint rejects
     * the transaction and the table keeps its old contents.
     */
    method Commit(session: map<Key, Record>) returns (ok: bool)
      modifies this
      ensures ok <==> session.Keys !! old(rows).Keys
      ensures rows == if ok then old(rows) + session else old(rows)
    {
      ok := session.Keys !! rows.Keys;
      if ok {
        rows := rows + session;
      }
    }

    /**
     * The loop of `generate_numbers_for_time`: visits the markets in order and,
     * for each one without a row under `code`, formats the six sampled numbers,
     * pops the head at the sampled index and joins the rest with commas. The
     * records go to the session, which is returned uncommitted.
     */
    method BuildSession(code: string, samples: seq<Sample>) returns (session: map<Key, Record>)
      requires ValidSamples(samples)
      ensures session == Pending(rows, code, Markets, Records(samples), |Markets|)
    {
      var markets := Markets;
      ghost var records := Records(samples);
      session := map[];
      for i := 0 to |markets|
        invariant session == Pending(rows, code, markets, records, i)
      {
        var market := markets[i];
        var found := Exists(code, market);
        if !found {
          var formatted := Format(samples[i].numbers);
          var (head, rest) := Pop(formatted, samples[i].headIndex);
          var specials := Join(rest);
          assert Record(head, specials) == records[i];
          session := session[(code, market) := Record(head, specials)];
        }
      }
    }

    /**
     * `generate_numbers_for_time(hour, minute)` on `date`, with the random
     * draws for market `Markets[i]` given as `samples[i]`: the session is
     * built and committed as one transaction, which never meets the unique
     * constraint.
     */
    method GenerateNumbersForTime(date: Date, hour: nat, minute: nat, samples: seq<Sample>)
      requires Valid()
      requires ValidDate(date) && ValidTime(hour, minute) && ValidSamples(samples)
      modifies this
      ensures Valid()
      ensures rows == Run(old(rows), Code(date, hour, minute), samples)
    {
      var code := Code(date, hour, minute);
      var session := BuildSession(code, samples);
      forall k | k in session ensures k !in rows {
        PendingOnly(rows, code, Markets, Records(samples), |Markets|, k);
      }
      var ok := Commit(session);
      assert ok && rows == Run(old(rows), code, samples);
      RunValid(old(rows), code, samples);
    }
  }

  /** A run on a table of well-formed rows leaves only well-formed rows. */
  lemma RunValid(rows: map<Key, Record>, code: string, samples: seq<Sample>)
    requires ValidSamples(samples) && WellFormedCode(code)
    requires forall k :: k in rows ==> ValidRow(k, rows[k])
    ensures var r := Run(rows, code, samples); forall k :: k in r ==> ValidRow(k, r[k])
  {
    var records := Records(samples);
    var p := Pending(rows, code, Markets, records, |Markets|);
    MarketsDistinct();
    forall k | k in p ensures ValidRow(k, p[k]) {
      PendingOnly(rows, code, Markets, records, |Markets|, k);
      var j :| 0 <= j < |Markets| && Markets[..|Markets|][j] == k.1;
      PendingHas(rows, code, Markets, records, |Markets|, j);
      MakeRecordWellFormed(samples[j]);
    }
  }

  /** After a run, every market has a row under the run's code. */
  lemma RunCoversMarkets(rows: map<Key, Record>, code: string, samples: seq<Sample>)
    requires ValidSamples(samples)
    ensures forall m :: m in Markets ==> (code, m) in Run(rows, code, samples)
  {
    MarketsDistinct();
    forall m | m in Markets ensures (code, m) in Run(rows, code, samples) {
      var j :| 0 <= j < |Markets| && Markets[j] == m;
      if (code, m) !in rows {
        PendingHas(rows, code, Markets, Records(samples), |Markets|, j);
      }
    }
  }

  /** A run adds rows only under its own code and only for markets of the alphabet. */
  lemma RunAddsOnlyAlphabet(rows: map<Key, Record>, code: string, samples: seq<Sample>)
    requires ValidSamples(samples)
    ensures forall k :: k in Run(rows, code, samples) && k !in rows ==> k.0 == code && k.1 in Markets
  {
    forall k | k in Run(rows, code, samples) && k !in rows ensures k.0 == code && k.1 in Markets {
      PendingOnly(rows, code, Markets, Records(samples), |Markets|, k);
      assert Markets[..|Markets|] == Markets;
    }
  }

  /** Rows that existed before a run keep their records; a run never overwrites. */
  lemma RunKeepsExisting(rows: map<Key, Record>, code: string, samples: seq<Sample>)
    requires ValidSamples(samples)
    ensures rows.Keys <= Run(rows, code, samples).Keys
    ensures forall k :: k in rows ==> Run(rows, code, samples)[k] == rows[k]
  {
    var p := Pending(rows, code, Markets, Records(samples), |Markets|);
    forall k | k in rows ensures k !in p {
      PendingOnly(rows, code, Markets, Records(samples), |Markets|, k);
    }
  }

  /** Every new row holds the record built from its market's sample. */
  lemma RunNewRecords(rows: map<Key, Record>, code: string, samples: seq<Sample>)
    requires ValidSamples(samples)
    ensures forall j :: 0 <= j < |Markets| && (code, Markets[j]) !in rows ==>
      (code, Markets[j]) in Run(rows, code, samples) &&
      Run(rows, code, samples)[(code, Markets[j])] == MakeRecord(samples[j])
  {
    MarketsDistinct();
    forall j | 0 <= j < |Markets| && (code, Markets[j]) !in rows
      ensures (code, Markets[j]) in Run(rows, code, samples)
      ensures Run(rows, code, samples)[(code, Markets[j])] == MakeRecord(samples[j])
    {
      PendingHas(rows, code, Markets, Records(samples), |Markets|, j);
    }
  }

  /** A second run for the same code, whatever it draws, leaves the table as the first left it. */
  lemma RunIdempotent(rows: map<Key, Record>, code: string, samples1: seq<Sample>, samples2: seq<Sample>)
    requires ValidSamples(samples1) && ValidSamples(samples2)
    ensures Run(Run(rows, code, samples1), code, samples2) == Run(rows, code, samples1)
  {
    var once := Run(rows, code, samples1);
    RunCoversMarkets(rows, code, samples1);
    var p := Pending(once, code, Markets, Records(samples2), |Markets|);
    assert Markets[..|Markets|] == Markets;
    forall k ensures k !in p {
      PendingOnly(once, code, Markets, Records(samples2), |Markets|, k);
    }
    assert p == map[];
  }

  /** On an empty table a run writes exactly nine rows, one per market, all under its code. */
  lemma RunOnEmptyTable(code: string, samples: seq<Sample>)
    requires ValidSamples(samples)
    ensures var r := Run(map[], code, samples);
      && |r| == 9
      && forall k :: k in r <==> k.0 == code && k.1 in Markets
  {
    RunCoversMarkets(map[], code, samples);
    RunAddsOnlyAlphabet(map[], code, samples);
    MarketsDistinct();
    PendingSize(map[], code, Markets, Records(samples), |Markets|);
  }

  /** Two runs for the same instant on a fresh table, the second seeing what the first committed, leave nine rows. */
  method GenerateTwice(date: Date, hour: nat, minute: nat, samples1: seq<Sample>, samples2: seq<Sample>)
    returns (count: nat)
    requires ValidDate(date) && ValidTime(hour, minute)
    requires ValidSamples(samples1) && ValidSamples(samples2)
    ensures count == 9
  {
    var table := new DrawTable();
    table.GenerateNumbersForTime(date, hour, minute, samples1);
    table.GenerateNumbersForTime(date, hour, minute, samples2);
    RunIdempotent(map[], Code(date, hour, minute), samples1, samples2);
    RunOnEmptyTable(Code(date, hour, minute), samples1);
    count := |table.rows|;
  }
}
