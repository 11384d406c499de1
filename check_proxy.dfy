/**
 * The free-proxy harvester: turn the rows of the proxy table into
 * `ip:port` candidates, keep those whose probe answers 200, and write the
 * survivors to the proxy-list file, one per line.
 */
module CheckProxy {
  import opened Wrappers
  import opened Text
  import opened Http
  import opened Filesystem
  import opened Seqs

  /** The texts of the `td` cells of one `tr` of the table. */
  type Row = seq<string>

  /** The rows of the proxy table, in document order. */
  type Table = seq<Row>

  /** Where `process_proxies` writes the survivors. */
  const ProxyListPath: string := "./proxy/proxy_list.txt"

  /**
   * What the test request to `https://ipinfo.io/json` through a proxy gives:
   * a response with some status, or a `RequestException`.
   */
  datatype ProbeOutcome = Status(code: int) | RequestException

  /**
   * The answers of one run's test requests (the network as an input): the
   * `i`-th validation task, numbered in the order of `proxy_list`, gets
   * `probe(i)`. Each task probes on its own, so two tasks testing the same
   * address may get different answers.
   */
  type Probe = nat -> ProbeOutcome

  /** One validation task: the address it tests and the answer its test request got. */
  datatype Probed = Probed(address: string, outcome: ProbeOutcome)

  /** How one harvesting run ends. */
  datatype Harvest =
    | PageError            // the page request raised, or its status made raise_for_status raise
    | NoTableCrash         // no table: `table.find_all` on None raises AttributeError, which nothing catches
    | Harvested(valid: seq<string>)

  // ---------------------------------------------------------------------------
  // Candidates from the table

  /** The candidate of a row with at least two cells. */
  function CandidateOf(row: Row): string
    requires |row| >= 2
  {
    Strip(row[0]) + ":" + Strip(row[1])
  }

  /** The `if len(cells) >= 2` test of the row loop, with the candidate it then builds. */
  function RowCandidate(row: Row): Option<string>
  {
    if |row| >= 2 then Some(CandidateOf(row)) else None
  }

  /** The candidates of `rows`, in row order. */
  function Candidates(rows: Table): seq<string>
  {
    FilterMap(rows, RowCandidate)
  }

  /** The candidates of two blocks of rows are those of the first block followed by those of the second. */
  lemma {:induction false} CandidatesConcat(a: Table, b: Table)
    ensures Candidates(a + b) == Candidates(a) + Candidates(b)
  {
    FilterMapConcat(a, b, RowCandidate);
  }

  /**
   * One more row adds exactly one candidate, `strip(cell0):strip(cell1)`,
   * at the end when it has two cells or more, even when that candidate is
   * already present; it adds nothing otherwise.
   */
  lemma {:induction false} CandidatesSnoc(rows: Table, row: Row)
    ensures Candidates(rows + [row]) ==
            Candidates(rows) + (if |row| >= 2 then [Strip(row[0]) + ":" + Strip(row[1])] else [])
  {
    FilterMapSnoc(rows, row, RowCandidate);
  }

  /** Cells after the second play no part. */
  lemma {:induction false} CandidatesIgnoreExtraCells(rows: Table, row: Row)
    requires |row| >= 2
    ensures Candidates(rows + [row]) == Candidates(rows + [row[..2]])
  {
    CandidatesSnoc(rows, row);
    CandidatesSnoc(rows, row[..2]);
  }

  /** Every candidate is the candidate of some row of the table with two cells or more. */
  lemma {:induction false} CandidatesFromRows(rows: Table, k: nat)
    requires k < |Candidates(rows)|
    ensures exists j :: 0 <= j < |rows| && |rows[j]| >= 2 && Candidates(rows)[k] == CandidateOf(rows[j])
  {
    FilterMapFrom(rows, RowCandidate, k);
    var j :| 0 <= j < |rows| && RowCandidate(rows[j]) == Some(Candidates(rows)[k]);
    assert |rows[j]| >= 2 && Candidates(rows)[k] == CandidateOf(rows[j]);
  }

  /** The loop of `scrape_free_proxy` that builds `proxy_list` from the table rows. */
  method ExtractCandidates(table: Table) returns (proxyList: seq<string>)
    ensures proxyList == Candidates(table)
  {
    proxyList := [];
    for i := 0 to |table|
      invariant proxyList == Candidates(table[..i])
    {
      var cells := table[i];
      if |cells| >= 2 {
        var ipAddress := Strip(cells[0]);
        var port := Strip(cells[1]);
        var ipProxyAddress := ipAddress + ":" + port;
        proxyList := proxyList + [ipProxyAddress];
      }
      CandidatesSnoc(table[..i], cells);
      assert table[..i + 1] == table[..i] + [cells];
    }
    assert table[..|table|] == table;
  }

  // ---------------------------------------------------------------------------
  // Validation

  /** A validation task succeeds when its test request returned status 200. */
  predicate Passes(t: Probed)
  {
    t.outcome == Status(200)
  }

  /** The tasks `process_proxies` submits: one per entry of the list, in list order. */
  function Tasks(proxyList: seq<string>, probe: Probe): seq<Probed>
  {
    seq(|proxyList|, i requires 0 <= i < |proxyList| => Probed(proxyList[i], probe(i)))
  }

  /**
   * `is_working_proxy`: `response` is what the test request through
   * `address` got. True exactly for a 200 answer; an exception is logged
   * and gives false.
   */
  method IsWorkingProxy(address: string, response: ProbeOutcome) returns (isValid: bool)
    ensures isValid <==> response.Status? && response.code == 200
    ensures response == RequestException ==> !isValid
  {
    isValid := false;
    var res := response;
    match res {
      case Status(code) =>
        if code == 200 {
          isValid := true;
        }
      case RequestException =>
    }
  }

  /** The Python list `valid_proxies` that the validation tasks append to. */
  class ProxyList {
    var items: seq<string>

    constructor ()
      ensures items == []
    {
      items := [];
    }

    method Append(p: string)
      modifies this
      ensures items == old(items) + [p]
    {
      items := items + [p];
    }
  }

  /**
   * `validate_and_collect_proxy` for the task that tests `address` and got
   * `response`: appends the address exactly when it validates and leaves
   * the list alone otherwise; `slept` records the random delay, which is
   * taken on the success branch only.
   */
  method ValidateAndCollect(address: string, response: ProbeOutcome, validProxies: ProxyList) returns (slept: bool)
    modifies validProxies
    ensures slept <==> Passes(Probed(address, response))
    ensures validProxies.items ==
            if Passes(Probed(address, response)) then old(validProxies.items) + [address] else old(validProxies.items)
  {
    var ok := IsWorkingProxy(address, response);
    if ok {
      validProxies.Append(address);
      slept := true;
    } else {
      slept := false;
    }
  }

  /** The addresses of the tasks of `ts` that validate, in the order of `ts`, duplicates kept. */
  function Validated(ts: seq<Probed>): (r: seq<string>)
    ensures |r| <= |ts|
    ensures forall p :: p in r ==> Probed(p, Status(200)) in ts
    decreases |ts|
  {
    if ts == [] then []
    else (if Passes(ts[0]) then [ts[0].address] else []) + Validated(ts[1..])
  }

  lemma {:induction false} ValidatedSnoc(ts: seq<Probed>, t: Probed)
    ensures Validated(ts + [t]) == Validated(ts) + (if Passes(t) then [t.address] else [])
    decreases |ts|
  {
    var last := if Passes(t) then [t.address] else [];
    if ts == [] {
      calc {
        Validated([] + [t]);
        { assert [] + [t] == [t]; }
        Validated([t]);
        last + Validated([t][1..]);
        { assert [t][1..] == []; }
        last;
      }
    } else {
      var head := if Passes(ts[0]) then [ts[0].address] else [];
      calc {
        Validated(ts + [t]);
        { assert (ts + [t])[0] == ts[0]; }
        head + Validated((ts + [t])[1..]);
        { assert (ts + [t])[1..] == ts[1..] + [t]; }
        head + Validated(ts[1..] + [t]);
        { ValidatedSnoc(ts[1..], t); }
        head + (Validated(ts[1..]) + last);
        (head + Validated(ts[1..])) + last;
        Validated(ts) + last;
      }
    }
  }

  /** An address survives once for every task that tested it and got status 200. */
  lemma {:induction false} ValidatedCount(ts: seq<Probed>, p: string)
    ensures multiset(Validated(ts))[p] == multiset(ts)[Probed(p, Status(200))]
    decreases |ts|
  {
    if ts != [] {
      var head := if Passes(ts[0]) then [ts[0].address] else [];
      var q := Probed(p, Status(200));
      calc {
        multiset(Validated(ts))[p];
        multiset(head + Validated(ts[1..]))[p];
        multiset(head)[p] + multiset(Validated(ts[1..]))[p];
        { ValidatedCount(ts[1..], p); }
        multiset(head)[p] + multiset(ts[1..])[q];
        { HeadCount(ts[0], p); }
        multiset([ts[0]])[q] + multiset(ts[1..])[q];
        { assert ts == [ts[0]] + ts[1..]; }
        multiset(ts)[q];
      }
    }
  }

  /** One task contributes its address once exactly when it is a successful probe of that address. */
  lemma HeadCount(t: Probed, p: string)
    ensures multiset(if Passes(t) then [t.address] else [])[p] == multiset([t])[Probed(p, Status(200))]
  {
    if Passes(t) {
      assert t.address == p <==> t == Probed(p, Status(200));
    } else {
      assert t != Probed(p, Status(200));
    }
  }

  /** Running the tasks in another order reorders the survivors and changes nothing else. */
  lemma ValidatedPermutation(a: seq<Probed>, b: seq<Probed>)
    requires multiset(a) == multiset(b)
    ensures multiset(Validated(a)) == multiset(Validated(b))
  {
    forall p
      ensures multiset(Validated(a))[p] == multiset(Validated(b))[p]
    {
      ValidatedCount(a, p);
      ValidatedCount(b, p);
    }
  }

  /**
   * An address survives at most as often as it is listed: exactly as often
   * when every probe of it answered 200, and never when none did.
   */
  lemma {:induction false} SurvivorCount(proxyList: seq<string>, probe: Probe, p: string)
    ensures multiset(Validated(Tasks(proxyList, probe)))[p] <= multiset(proxyList)[p]
    ensures (forall i :: 0 <= i < |proxyList| && proxyList[i] == p ==> probe(i) == Status(200)) ==>
              multiset(Validated(Tasks(proxyList, probe)))[p] == multiset(proxyList)[p]
    ensures (forall i :: 0 <= i < |proxyList| && proxyList[i] == p ==> probe(i) != Status(200)) ==>
              multiset(Validated(Tasks(proxyList, probe)))[p] == 0
  {
    ValidatedCount(Tasks(proxyList, probe), p);
    TasksCount(proxyList, probe, p);
  }

  lemma {:induction false} TasksCount(proxyList: seq<string>, probe: Probe, p: string)
    ensures multiset(Tasks(proxyList, probe))[Probed(p, Status(200))] <= multiset(proxyList)[p]
    ensures (forall i :: 0 <= i < |proxyList| && proxyList[i] == p ==> probe(i) == Status(200)) ==>
              multiset(Tasks(proxyList, probe))[Probed(p, Status(200))] == multiset(proxyList)[p]
    ensures (forall i :: 0 <= i < |proxyList| && proxyList[i] == p ==> probe(i) != Status(200)) ==>
              multiset(Tasks(proxyList, probe))[Probed(p, Status(200))] == 0
    decreases |proxyList|
  {
    if proxyList != [] {
      var n := |proxyList| - 1;
      var init, x := proxyList[..n], proxyList[n];
      assert proxyList == init + [x];
      assert Tasks(proxyList, probe) == Tasks(init, probe) + [Probed(x, probe(n))];
      TasksCount(init, probe, p);
      assert forall i :: 0 <= i < |init| ==> init[i] == proxyList[i];
    }
  }

  /** Whatever order the tasks run in, every survivor is an address of the list. */
  lemma SurvivorsListed(order: seq<Probed>, proxyList: seq<string>, probe: Probe)
    requires multiset(order) == multiset(Tasks(proxyList, probe))
    ensures forall p :: p in Validated(order) ==> p in proxyList
  {
    var tasks := Tasks(proxyList, probe);
    forall p | p in Validated(order)
      ensures p in proxyList
    {
      assert Probed(p, Status(200)) in multiset(tasks);
      var i :| 0 <= i < |tasks| && tasks[i] == Probed(p, Status(200));
      assert proxyList[i] == p;
    }
  }

  /**
   * Two tasks testing one address are probed apart: when the first gets
   * 200 and the second times out, the address survives once.
   */
  lemma DuplicateProbedApart(p: string, probe: Probe)
    requires probe(0) == Status(200) && probe(1) == RequestException
    ensures Validated(Tasks([p, p], probe)) == [p]
  {
    var ts := Tasks([p, p], probe);
    assert ts == [Probed(p, Status(200)), Probed(p, RequestException)];
    assert Validated(ts) == [p] + Validated(ts[1..]);
    assert Validated(ts[1..]) == [] + Validated(ts[2..]);
  }

  // ---------------------------------------------------------------------------
  // The proxy-list file

  /** The text `process_proxies` writes: each proxy followed by a newline. */
  function Serialised(ps: seq<string>): (text: string)
    ensures text == [] <==> ps == []
    ensures ps != [] ==> text[|text| - 1] == '\n'
    decreases |ps|
  {
    if ps == [] then [] else ps[0] + "\n" + Serialised(ps[1..])
  }

  lemma {:induction false} SerialisedSnoc(ps: seq<string>, p: string)
    ensures Serialised(ps + [p]) == Serialised(ps) + p + "\n"
    decreases |ps|
  {
    if ps == [] {
      assert Serialised([p]) == p + "\n" + Serialised([]);
    } else {
      assert (ps + [p])[1..] == ps[1..] + [p];
      SerialisedSnoc(ps[1..], p);
    }
  }

  /** An entry the proxy-list file can carry unchanged through a write and a read. */
  predicate Storable(p: string)
  {
    '\n' !in p && '\r' !in p && !EndsInSpace(p)
  }

  lemma {:induction false} SerialisedNoCarriageReturn(ps: seq<string>)
    requires forall i :: 0 <= i < |ps| ==> '\r' !in ps[i]
    ensures '\r' !in Serialised(ps)
    decreases |ps|
  {
    if ps != [] {
      SerialisedNoCarriageReturn(ps[1..]);
    }
  }

  lemma {:induction false} LinesOfSerialised(ps: seq<string>)
    requires forall i :: 0 <= i < |ps| ==> '\n' !in ps[i]
    ensures LinesOfEntries(LinesOf(Serialised(ps)), ps)
    decreases |ps|
  {
    if ps != [] {
      var rest := Serialised(ps[1..]);
      assert LinesOf(Serialised(ps)) == [ps[0] + "\n"] + LinesOf(rest) by {
        assert Serialised(ps) == ps[0] + "\n" + rest;
        LinesOfLine(ps[0], rest);
      }
      LinesOfSerialised(ps[1..]);
      ConsLinesOfEntries(ps[0], ps[1..], LinesOf(rest));
      assert [ps[0]] + ps[1..] == ps;
    }
  }

  /** `lines` are the entries of `ps`, in order, each followed by `'\n'`. */
  predicate LinesOfEntries(lines: seq<string>, ps: seq<string>)
  {
    |lines| == |ps| && forall i :: 0 <= i < |ps| ==> lines[i] == ps[i] + "\n"
  }

  lemma ConsLinesOfEntries(p: string, ps: seq<string>, tail: seq<string>)
    requires LinesOfEntries(tail, ps)
    ensures LinesOfEntries([p + "\n"] + tail, [p] + ps)
  {
    var lines, entries := [p + "\n"] + tail, [p] + ps;
    forall i | 0 < i < |entries|
      ensures lines[i] == entries[i] + "\n"
    {
      assert lines[i] == tail[i - 1] && entries[i] == ps[i - 1];
    }
  }

  /**
   * Persist/load round trip: reading back, with `read_file_to_list`, the
   * file `process_proxies` wrote gives exactly the list written, in order,
   * when no entry holds a line break or ends in whitespace; the empty list
   * gives an empty file and comes back empty.
   */
  lemma PersistLoadRoundTrip(ps: seq<string>)
    requires forall i :: 0 <= i < |ps| ==> Storable(ps[i])
    ensures StrippedLines(Serialised(ps)) == ps
  {
    SerialisedNoCarriageReturn(ps);
    LinesOfSerialised(ps);
    var raw := LinesOf(Translated(Serialised(ps)));
    assert raw == LinesOf(Serialised(ps));
    var r := StrippedLines(Serialised(ps));
    assert |r| == |raw| == |ps|;
    forall i | 0 <= i < |ps|
      ensures r[i] == ps[i]
    {
      assert raw[i] == ps[i] + "\n";
      RStripLine(ps[i]);
    }
  }

  /**
   * The text `process_proxies` writes where text mode turns each `'\n'`
   * into the platform line separator `"\r\n"`.
   */
  function SerialisedCrLf(ps: seq<string>): string
    decreases |ps|
  {
    if ps == [] then [] else ps[0] + "\r\n" + SerialisedCrLf(ps[1..])
  }

  /** Reading translates the `"\r\n"` line ends back, so the reader sees the same text on either platform. */
  lemma {:induction false} TranslatedCrLfSerialised(ps: seq<string>)
    requires forall i :: 0 <= i < |ps| ==> '\r' !in ps[i]
    ensures Translated(SerialisedCrLf(ps)) == Serialised(ps)
    decreases |ps|
  {
    if ps != [] {
      TranslatedCrLf(ps[0], SerialisedCrLf(ps[1..]));
      TranslatedCrLfSerialised(ps[1..]);
    }
  }

  /** The persist/load round trip also holds where lines are written with `"\r\n"`. */
  lemma PersistLoadRoundTripCrLf(ps: seq<string>)
    requires forall i :: 0 <= i < |ps| ==> Storable(ps[i])
    ensures StrippedLines(SerialisedCrLf(ps)) == ps
  {
    TranslatedCrLfSerialised(ps);
    SerialisedNoCarriageReturn(ps);
    PersistLoadRoundTrip(ps);
    assert Translated(Serialised(ps)) == Serialised(ps);
  }

  /** Stripping a written line gives back the entry, when the entry does not end in whitespace. */
  lemma RStripLine(p: string)
    requires !EndsInSpace(p)
    ensures RStrip(p + "\n") == p
  {
    var line := p + "\n";
    assert line[..|line| - 1] == p;
    assert RStrip(line) == RStrip(p);
  }

  /**
   * A candidate built from cells without line breaks can be stored: it has
   * none either, and it cannot end in whitespace, since it ends in the
   * stripped port or, when that is empty, in the colon.
   */
  lemma CandidateStorable(row: Row)
    requires |row| >= 2
    requires '\n' !in row[0] && '\r' !in row[0] && '\n' !in row[1] && '\r' !in row[1]
    ensures Storable(CandidateOf(row))
  {
    var ip, port := Strip(row[0]), Strip(row[1]);
    StripSpec(row[1]);
    if '\n' in ip { StripWithin(row[0], '\n'); }
    if '\r' in ip { StripWithin(row[0], '\r'); }
    if '\n' in port { StripWithin(row[1], '\n'); }
    if '\r' in port { StripWithin(row[1], '\r'); }
    var candidate := ip + ":" + port;
    assert candidate[|candidate| - 1] == if port == [] then ':' else port[|port| - 1];
  }

  /**
   * `process_proxies`. The thread pool is serialised: the tasks run one by
   * one in the order `schedule` puts them, some rearrangement of the
   * tasks, each task with the answer its own probe got. The survivors are,
   * as a multiset, exactly the addresses of the tasks that validated;
   * each took one delay; and the proxy-list file now holds them, one line
   * each, whatever it held before, every other file unchanged.
   */
  method ProcessProxies(proxyList: seq<string>, probe: Probe, schedule: seq<Probed> -> seq<Probed>, fs: FileSystem)
    returns (valid: seq<string>, delays: nat)
    requires multiset(schedule(Tasks(proxyList, probe))) == multiset(Tasks(proxyList, probe))
    modifies fs
    ensures valid == Validated(schedule(Tasks(proxyList, probe)))
    ensures multiset(valid) == multiset(Validated(Tasks(proxyList, probe)))
    ensures forall p :: p in valid ==> p in proxyList
    ensures delays == |valid|
    ensures fs.files == old(fs.files)[ProxyListPath := Serialised(valid)]
  {
    var tasks := Tasks(proxyList, probe);
    var order := schedule(tasks);
    valid, delays := RunTasks(order);
    ValidatedPermutation(order, tasks);
    SurvivorsListed(order, proxyList, probe);
    WriteProxyFile(valid, fs);
  }

  /**
   * The thread-pool block of `process_proxies`, serialised: the tasks run in
   * the order given, each appending its address to the shared
   * `valid_proxies` when it validates, and taking one delay when it does.
   */
  method RunTasks(order: seq<Probed>) returns (valid: seq<string>, delays: nat)
    ensures valid == Validated(order)
    ensures delays == |valid|
  {
    var validProxies := new ProxyList();
    delays := 0;
    for i := 0 to |order|
      invariant validProxies.items == Validated(order[..i])
      invariant delays == |validProxies.items|
    {
      var slept := ValidateAndCollect(order[i].address, order[i].outcome, validProxies);
      if slept {
        delays := delays + 1;
      }
      ValidatedSnoc(order[..i], order[i]);
      assert order[..i + 1] == order[..i] + [order[i]];
    }
    assert order[..|order|] == order;
    valid := validProxies.items;
  }

  /**
   * The `with open(..., 'w')` block of `process_proxies`: the proxy-list
   * file ends up holding exactly the lines of `valid`, whatever it held
   * before, and no other file changes.
   */
  method WriteProxyFile(valid: seq<string>, fs: FileSystem)
    modifies fs
    ensures fs.files == old(fs.files)[ProxyListPath := Serialised(valid)]
  {
    fs.Truncate(ProxyListPath);
    for i := 0 to |valid|
      invariant fs.files == old(fs.files)[ProxyListPath := Serialised(valid[..i])]
    {
      ghost var before := fs.files;
      fs.Append(ProxyListPath, valid[i] + "\n");
      SerialisedSnoc(valid[..i], valid[i]);
      assert valid[..i + 1] == valid[..i] + [valid[i]];
      assert fs.files == before[ProxyListPath := Serialised(valid[..i]) + (valid[i] + "\n")];
      assert Serialised(valid[..i]) + (valid[i] + "\n") == Serialised(valid[..i + 1]);
    }
    assert valid[..|valid|] == valid;
  }

  // ---------------------------------------------------------------------------
  // The run

  /**
   * The User-Agent header `scrape_free_proxy` sends: present exactly when
   * the list is non-empty (None and [] are both falsy), and then one of its
   * entries; `choice` stands for `random.choice`.
   */
  function UserAgentHeader(userAgents: seq<string>, choice: nat): (h: Option<string>)
    ensures h.Some? <==> |userAgents| > 0
    ensures h.Some? ==> h.value in userAgents
  {
    if |userAgents| > 0 then Some(userAgents[choice % |userAgents|]) else None
  }

  /** Every entry of the list is a possible header. */
  lemma UserAgentReachable(userAgents: seq<string>, k: nat)
    requires k < |userAgents|
    ensures exists choice: nat :: UserAgentHeader(userAgents, choice) == Some(userAgents[k])
  {
    assert k % |userAgents| == k;
    assert UserAgentHeader(userAgents, k) == Some(userAgents[k]);
  }

  /**
   * `scrape_free_proxy`. The fetched page is an input: a request
   * exception, or a status with the parsed table (None when the page has
   * no table of the expected class).
   */
  method ScrapeFreeProxy(userAgents: seq<string>, choice: nat, page: Page<Option<Table>>, probe: Probe,
                         schedule: seq<Probed> -> seq<Probed>, fs: FileSystem)
    returns (userAgent: Option<string>, outcome: Harvest)
    requires forall s :: multiset(schedule(s)) == multiset(s)
    modifies fs
    ensures userAgent == UserAgentHeader(userAgents, choice)
    ensures page.RequestFailed? || RaisesForStatus(page.status) ==>
              outcome == PageError && fs.files == old(fs.files)
    ensures page.Response? && !RaisesForStatus(page.status) && page.body.None? ==>
              outcome == NoTableCrash && fs.files == old(fs.files)
    ensures page.Response? && !RaisesForStatus(page.status) && page.body.Some? ==>
              && outcome.Harvested?
              && multiset(outcome.valid) == multiset(Validated(Tasks(Candidates(page.body.value), probe)))
              && fs.files == old(fs.files)[ProxyListPath := Serialised(outcome.valid)]
  {
    userAgent := UserAgentHeader(userAgents, choice);
    match page {
      case RequestFailed =>
        outcome := PageError;
      case Response(status, table) =>
        if RaisesForStatus(status) {
          outcome := PageError;
        } else if table.None? {
          outcome := NoTableCrash;
        } else {
          var proxyList := ExtractCandidates(table.value);
          var valid, _ := ProcessProxies(proxyList, probe, schedule, fs);
          outcome := Harvested(valid);
        }
    }
  }
}
