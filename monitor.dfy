/** The engine of monitor.js: onboarding a product from a newly opened issue,
    the scheduled sweep over every tracked product, and the dispatch between
    them. The price source is a `Prices` oracle (what `getPrice` returns or
    throws for each URL during this run, `PriceOf` of the page the URL
    renders to) and the issue tracker a `Notifier` (whether posting a given
    comment succeeds). */
module Monitor {
  import opened Wrappers
  import opened UrlExtraction
  import opened PriceExtraction
  import opened TrackingStore

  type Prices = Url -> Result<real, PriceError>
  type Notifier = Comment -> bool

  /** Why the onboarding comment reports failure: `getPrice` threw, or posting
      the success comment threw. */
  datatype FailureReason = PriceFailure(error: PriceError) | PostFailure

  /** The comments the program posts on an issue. */
  datatype Comment =
    | NoUrlFound(issue: int)
    | Added(issue: int, url: Url, price: real)
    | PriceUnavailable(issue: int, reason: FailureReason)
    | PriceDropped(issue: int, before: real, after: real, url: Url)

  /** The comments that end up on the tracker when `c` is posted. */
  function Post(c: Comment, delivered: Notifier): seq<Comment>
  {
    if delivered(c) then [c] else []
  }

  /** What one run does: the store it leaves in memory, the snapshots it
      writes to the data file, in order, and the comments it posts. */
  datatype Outcome = Outcome(store: Snapshot, writes: seq<Snapshot>, comments: seq<Comment>)

  // ---------------------------------------------------------------------
  // Onboarding (an issue was opened)
  // ---------------------------------------------------------------------

  /** The onboarding branch of `run`: with no URL in the body, a comment and
      nothing else; when `getPrice` fails, a failure comment; otherwise the
      record is (over)written, the file saved, and a success comment posted,
      whose failure is itself reported as a failure. */
  function Onboarding(s: Snapshot, issue: int, body: string, prices: Prices, now: string, delivered: Notifier): (o: Outcome)
    requires Valid(s)
    ensures Valid(o.store)
    ensures |o.comments| <= 1
    ensures ExtractUrlFromIssue(body).None? ==> o.store == s && o.writes == [] && o.comments == Post(NoUrlFound(issue), delivered)
    ensures forall k :: k in s.records && ExtractUrlFromIssue(body) != Some(k) ==>
              k in o.store.records && o.store.records[k] == s.records[k]
    ensures o.writes == [] ==> o.store == s
    ensures o.writes == [] <==> !(ExtractUrlFromIssue(body).Some? && prices(ExtractUrlFromIssue(body).value).Success?)
    ensures o.writes != [] ==>
              var url := ExtractUrlFromIssue(body).value;
              o.writes == [o.store] && url in o.store.records && o.store.records[url] == Record(issue, prices(url).value, now)
    ensures o.writes != [] ==>
              var url := ExtractUrlFromIssue(body).value;
              o.store == Put(s, url, Record(issue, prices(url).value, now))
    ensures ExtractUrlFromIssue(body).Some? ==>
              var url := ExtractUrlFromIssue(body).value;
              match prices(url)
              case Failure(e) => o.comments == Post(PriceUnavailable(issue, PriceFailure(e)), delivered)
              case Success(p) =>
                o.comments == if delivered(Added(issue, url, p)) then [Added(issue, url, p)]
                              else Post(PriceUnavailable(issue, PostFailure), delivered)
  {
    match ExtractUrlFromIssue(body)
    case None => Outcome(s, [], Post(NoUrlFound(issue), delivered))
    case Some(url) =>
      match prices(url)
      case Failure(e) => Outcome(s, [], Post(PriceUnavailable(issue, PriceFailure(e)), delivered))
      case Success(price) =>
        var s' := Put(s, url, Record(issue, price, now));
        var added := Added(issue, url, price);
        var posted := if delivered(added) then [added] else Post(PriceUnavailable(issue, PostFailure), delivered);
        Outcome(s', [s'], posted)
  }

  // ---------------------------------------------------------------------
  // Sweep (the scheduled run)
  // ---------------------------------------------------------------------

  /** One iteration of the sweep loop: re-read the price; on a strictly lower
      one, post the drop and, only once the post went through, lower the
      baseline. A failed read or a failed post leaves the record as it was. */
  function Visit(url: Url, rec: Record, prices: Prices, delivered: Notifier): (v: (Record, seq<Comment>))
    ensures v.0.issueNumber == rec.issueNumber && v.0.lastChecked == rec.lastChecked
    ensures v.0.initialPrice <= rec.initialPrice
    ensures v.1 == [] <==> v.0 == rec
    ensures v.1 != [] ==>
              && prices(url).Success?
              && prices(url).value < rec.initialPrice
              && v.0.initialPrice == prices(url).value
              && v.1 == [PriceDropped(rec.issueNumber, rec.initialPrice, prices(url).value, url)]
    ensures prices(url).Success? && prices(url).value < rec.initialPrice
            && delivered(PriceDropped(rec.issueNumber, rec.initialPrice, prices(url).value, url))
            ==> v.1 != []
    ensures prices(url).Success? && !delivered(PriceDropped(rec.issueNumber, rec.initialPrice, prices(url).value, url))
            ==> v == (rec, [])
  {
    match prices(url)
    case Failure(_) => (rec, [])
    case Success(price) =>
      var drop := PriceDropped(rec.issueNumber, rec.initialPrice, price, url);
      if price < rec.initialPrice && delivered(drop) then (rec.(initialPrice := price), [drop])
      else (rec, [])
  }

  /** The drop comments of the first `n` visits of a sweep over `keys`, in
      key order. */
  function SweepComments(keys: seq<Url>, records: map<Url, Record>, n: nat, prices: Prices, delivered: Notifier): (cs: seq<Comment>)
    requires n <= |keys| && forall j :: 0 <= j < |keys| ==> keys[j] in records
    ensures |cs| <= n
    ensures forall i :: 0 <= i < |cs| ==>
              && cs[i].PriceDropped?
              && cs[i].url in keys
              && cs[i].after < cs[i].before
              && cs[i].issue == records[cs[i].url].issueNumber
              && cs[i].before == records[cs[i].url].initialPrice
  {
    if n == 0 then []
    else
      var k := keys[n - 1];
      SweepComments(keys, records, n - 1, prices, delivered) + Visit(k, records[k], prices, delivered).1
  }

  /** Every record after a sweep, each visited once on its own. */
  function SweepRecords(records: map<Url, Record>, prices: Prices, delivered: Notifier): (r: map<Url, Record>)
    ensures r.Keys == records.Keys
    ensures forall k :: k in records ==>
              && r[k].issueNumber == records[k].issueNumber
              && r[k].lastChecked == records[k].lastChecked
              && r[k].initialPrice <= records[k].initialPrice
  {
    map k | k in records :: Visit(k, records[k], prices, delivered).0
  }

  /** The records once the first `n` keys have been visited, one by one. */
  ghost function SweptPrefix(keys: seq<Url>, records: map<Url, Record>, n: nat, prices: Prices, delivered: Notifier): map<Url, Record>
    requires n <= |keys| && forall k :: k in keys ==> k in records
  {
    if n == 0 then records
    else
      var k := keys[n - 1];
      SweptPrefix(keys, records, n - 1, prices, delivered)[k := Visit(k, records[k], prices, delivered).0]
  }

  /** After the first `n` visits, a visited key holds its visit's record and
      any other key its original one. */
  lemma {:induction false} SweptPrefixAt(s: Snapshot, n: nat, j: nat, prices: Prices, delivered: Notifier)
    requires Valid(s) && n <= |s.keys| && j < |s.keys|
    ensures var m := SweptPrefix(s.keys, s.records, n, prices, delivered);
            && m.Keys == s.records.Keys
            && m[s.keys[j]] == if j < n then Visit(s.keys[j], s.records[s.keys[j]], prices, delivered).0 else s.records[s.keys[j]]
  {
    if n > 0 {
      SweptPrefixAt(s, n - 1, j, prices, delivered);
      assert j != n - 1 ==> s.keys[j] != s.keys[n - 1];
    }
  }

  /** Visiting every key yields the records of the sweep. */
  lemma SweptEveryKey(s: Snapshot, prices: Prices, delivered: Notifier)
    requires Valid(s)
    ensures SweptPrefix(s.keys, s.records, |s.keys|, prices, delivered) == SweepRecords(s.records, prices, delivered)
  {
    var m := SweptPrefix(s.keys, s.records, |s.keys|, prices, delivered);
    if s.keys != [] {
      SweptPrefixAt(s, |s.keys|, 0, prices, delivered);
    }
    forall k | k in m ensures m[k] == SweepRecords(s.records, prices, delivered)[k] {
      var j :| 0 <= j < |s.keys| && s.keys[j] == k;
      SweptPrefixAt(s, |s.keys|, j, prices, delivered);
    }
  }

  /** The sweep is the visits of every key, one after the other. */
  lemma SweepByVisits(s: Snapshot, prices: Prices, delivered: Notifier)
    requires Valid(s)
    ensures Sweeping(s, prices, delivered).store == Snapshot(s.keys, SweptPrefix(s.keys, s.records, |s.keys|, prices, delivered))
  {
    SweptEveryKey(s, prices, delivered);
  }

  /** The next visit finds the key's original record. */
  lemma SweptPrefixNext(s: Snapshot, n: nat, prices: Prices, delivered: Notifier)
    requires Valid(s) && n < |s.keys|
    ensures var m := SweptPrefix(s.keys, s.records, n, prices, delivered);
            && s.keys[n] in m && m[s.keys[n]] == s.records[s.keys[n]]
  {
    SweptPrefixAt(s, n, n, prices, delivered);
  }

  /** The scheduled branch of `run`: every record visited in key order, then
      the file written once. */
  function Sweeping(s: Snapshot, prices: Prices, delivered: Notifier): (o: Outcome)
    requires Valid(s)
    ensures Valid(o.store) && o.store.keys == s.keys && o.writes == [o.store]
    ensures o.store.records == SweepRecords(s.records, prices, delivered)
    ensures o.comments == SweepComments(s.keys, s.records, |s.keys|, prices, delivered)
  {
    var after := Snapshot(s.keys, SweepRecords(s.records, prices, delivered));
    Outcome(after, [after], SweepComments(s.keys, s.records, |s.keys|, prices, delivered))
  }

  /** No comment in `cs` is about `k`. */
  predicate NoneAbout(cs: seq<Comment>, k: Url)
    requires forall i :: 0 <= i < |cs| ==> cs[i].PriceDropped?
  {
    forall i :: 0 <= i < |cs| ==> cs[i].url != k
  }

  /** Every comment in `cs` carries the price read for its URL. */
  predicate CarryReadPrices(cs: seq<Comment>, prices: Prices)
    requires forall i :: 0 <= i < |cs| ==> cs[i].PriceDropped?
  {
    forall i :: 0 <= i < |cs| ==> prices(cs[i].url).Success? && cs[i].after == prices(cs[i].url).value
  }

  /** A sweep posts nothing about a key whose own visit posts nothing: every
      drop comment names the URL whose visit produced it. */
  lemma {:induction false} QuietKey(keys: seq<Url>, records: map<Url, Record>, n: nat, prices: Prices, delivered: Notifier, k: Url)
    requires n <= |keys| && forall j :: 0 <= j < |keys| ==> keys[j] in records
    requires k in records && Visit(k, records[k], prices, delivered).1 == []
    ensures NoneAbout(SweepComments(keys, records, n, prices, delivered), k)
  {
    if n > 0 {
      var m: nat := n - 1;
      var last := keys[m];
      QuietKey(keys, records, m, prices, delivered, k);
      var earlier := SweepComments(keys, records, m, prices, delivered);
      var visit := Visit(last, records[last], prices, delivered).1;
      assert SweepComments(keys, records, n, prices, delivered) == earlier + visit;
      assert visit != [] ==> last != k && forall i :: 0 <= i < |visit| ==> visit[i].url == last;
      forall i | 0 <= i < |earlier + visit| ensures (earlier + visit)[i].url != k {
        if i < |earlier| {
          assert (earlier + visit)[i] == earlier[i];
        } else {
          assert (earlier + visit)[i] == visit[i - |earlier|];
        }
      }
    }
  }

  /** Every drop comment of a sweep carries the price read for its URL. */
  lemma {:induction false} SweepCommentsCarryReadPrice(keys: seq<Url>, records: map<Url, Record>, n: nat, prices: Prices, delivered: Notifier)
    requires n <= |keys| && forall j :: 0 <= j < |keys| ==> keys[j] in records
    ensures CarryReadPrices(SweepComments(keys, records, n, prices, delivered), prices)
  {
    if n > 0 {
      var m: nat := n - 1;
      var last := keys[m];
      SweepCommentsCarryReadPrice(keys, records, m, prices, delivered);
      var earlier := SweepComments(keys, records, m, prices, delivered);
      var visit := Visit(last, records[last], prices, delivered).1;
      var cs: seq<Comment> := earlier + visit;
      assert SweepComments(keys, records, n, prices, delivered) == cs;
      forall i | 0 <= i < |cs| ensures prices(cs[i].url).Success? && cs[i].after == prices(cs[i].url).value {
        if i < |earlier| {
          assert cs[i] == earlier[i];
        } else {
          assert cs[i] == visit[i - |earlier|];
        }
      }
    }
  }

  /** A drop whose post went through during one of the first `n` visits is
      among the comments of the sweep. */
  lemma {:induction false} DeliveredDropInSweep(keys: seq<Url>, records: map<Url, Record>, n: nat, j: nat, prices: Prices, delivered: Notifier)
    requires n <= |keys| && forall i :: 0 <= i < |keys| ==> keys[i] in records
    requires j < n && Visit(keys[j], records[keys[j]], prices, delivered).1 != []
    ensures Visit(keys[j], records[keys[j]], prices, delivered).1[0] in SweepComments(keys, records, n, prices, delivered)
  {
    var m: nat := n - 1;
    var earlier := SweepComments(keys, records, m, prices, delivered);
    var visit := Visit(keys[m], records[keys[m]], prices, delivered).1;
    assert SweepComments(keys, records, n, prices, delivered) == earlier + visit;
    var c := Visit(keys[j], records[keys[j]], prices, delivered).1[0];
    if j < m {
      DeliveredDropInSweep(keys, records, m, j, prices, delivered);
      assert c in earlier;
      var i :| 0 <= i < |earlier| && earlier[i] == c;
      assert (earlier + visit)[i] == c;
    } else {
      assert (earlier + visit)[|earlier|] == visit[0] == c;
    }
  }

  /** A key whose own visit posts nothing keeps its record through the
      sweep and gets no comment. */
  lemma QuietKeyUnchanged(s: Snapshot, prices: Prices, delivered: Notifier, k: Url)
    requires Valid(s) && k in s.records && Visit(k, s.records[k], prices, delivered).1 == []
    ensures var o := Sweeping(s, prices, delivered);
            && k in o.store.records && o.store.records[k] == s.records[k]
            && forall i :: 0 <= i < |o.comments| ==> o.comments[i].url != k
  {
    var o := Sweeping(s, prices, delivered);
    assert SweepRecords(s.records, prices, delivered)[k] == Visit(k, s.records[k], prices, delivered).0;
    assert o.store.records[k] == s.records[k];
    QuietKey(s.keys, s.records, |s.keys|, prices, delivered, k);
    assert o.comments == SweepComments(s.keys, s.records, |s.keys|, prices, delivered);
  }

  /** A URL whose price cannot be read keeps its record and gets no comment,
      and the sweep goes on with the others. */
  lemma SweepIsolatesFailure(s: Snapshot, prices: Prices, delivered: Notifier, k: Url)
    requires Valid(s) && k in s.records && prices(k).Failure?
    ensures var o := Sweeping(s, prices, delivered);
            && k in o.store.records && o.store.records[k] == s.records[k]
            && (forall i :: 0 <= i < |o.comments| ==> o.comments[i].url != k)
            && forall j :: 0 <= j < |s.keys| && s.keys[j] != k ==>
                 o.store.records[s.keys[j]] == Visit(s.keys[j], s.records[s.keys[j]], prices, delivered).0
  {
    QuietKeyUnchanged(s, prices, delivered, k);
  }

  /** Posting that never fails. */
  function AlwaysDelivered(c: Comment): bool
  {
    true
  }

  /** Once a sweep has posted every drop it found, a second sweep that reads
      the same prices finds no drop and changes nothing: an equal price is not
      a drop. */
  lemma SweepSettles(s: Snapshot, prices: Prices, later: Notifier)
    requires Valid(s)
    ensures var first := Sweeping(s, prices, AlwaysDelivered);
            var second := Sweeping(first.store, prices, later);
            second.store == first.store && second.comments == []
  {
    var first := Sweeping(s, prices, AlwaysDelivered);
    var after := first.store;
    forall k | k in after.records
      ensures Visit(k, after.records[k], prices, later).1 == []
    {
      assert after.records[k] == Visit(k, s.records[k], prices, AlwaysDelivered).0;
    }
    var second := Sweeping(after, prices, later);
    forall k | k in after.records
      ensures second.store.records[k] == after.records[k]
    {
      QuietKeyUnchanged(after, prices, later, k);
    }
    assert second.store.records == after.records;
    if second.comments != [] {
      var k := second.comments[0].url;
      assert k in after.keys;
      QuietKeyUnchanged(after, prices, later, k);
    }
  }

  /** A product onboarded at some price and swept at that same price gets no
      drop comment and keeps its baseline. */
  lemma NoDropAtOnboardingPrice(s: Snapshot, issue: int, body: string, prices: Prices, now: string,
                                delivered: Notifier, later: Notifier)
    requires Valid(s)
    requires ExtractUrlFromIssue(body).Some? && prices(ExtractUrlFromIssue(body).value).Success?
    ensures var url := ExtractUrlFromIssue(body).value;
            var onboarded := Onboarding(s, issue, body, prices, now, delivered).store;
            var swept := Sweeping(onboarded, prices, later);
            && url in swept.store.records
            && swept.store.records[url] == onboarded.records[url] == Record(issue, prices(url).value, now)
            && forall i :: 0 <= i < |swept.comments| ==> swept.comments[i].url != url
  {
    var url := ExtractUrlFromIssue(body).value;
    var o := Onboarding(s, issue, body, prices, now, delivered);
    assert o.writes != [];
    var onboarded := o.store;
    assert onboarded.records[url] == Record(issue, prices(url).value, now);
    assert Visit(url, onboarded.records[url], prices, later).1 == [];
    QuietKeyUnchanged(onboarded, prices, later, url);
  }

  /** The store after a series of scheduled runs, each with the prices it
      read and the posts that went through. */
  function Sweeps(s: Snapshot, rounds: seq<(Prices, Notifier)>): (r: Snapshot)
    requires Valid(s)
    ensures Valid(r)
    decreases |rounds|
  {
    if rounds == [] then s
    else Sweeps(Sweeping(s, rounds[0].0, rounds[0].1).store, rounds[1..])
  }

  /** Over any series of sweeps the tracked URLs stay the same, in the same
      order, no issue number or timestamp changes, and no baseline rises. */
  lemma {:induction false} BaselinesNeverRise(s: Snapshot, rounds: seq<(Prices, Notifier)>)
    requires Valid(s)
    ensures var r := Sweeps(s, rounds);
            && r.keys == s.keys
            && r.records.Keys == s.records.Keys
            && forall k :: k in s.records ==>
                 && r.records[k].issueNumber == s.records[k].issueNumber
                 && r.records[k].lastChecked == s.records[k].lastChecked
                 && r.records[k].initialPrice <= s.records[k].initialPrice
    decreases |rounds|
  {
    if rounds != [] {
      var next := Sweeping(s, rounds[0].0, rounds[0].1).store;
      BaselinesNeverRise(next, rounds[1..]);
    }
  }

  // ---------------------------------------------------------------------
  // Dispatch
  // ---------------------------------------------------------------------

  /** The event that started the run: an opened issue, the schedule, or
      anything else (another event, another issue action, no payload). */
  datatype Trigger = IssueOpened(issue: int, body: string) | Schedule | Other

  /** `run()`: nothing happens without a working issue-tracker client. */
  function Running(s: Snapshot, trigger: Trigger, clientReady: bool, prices: Prices, now: string, delivered: Notifier): (o: Outcome)
    requires Valid(s)
    ensures Valid(o.store)
    ensures !clientReady || trigger.Other? ==> o == Outcome(s, [], [])
    ensures clientReady && trigger.IssueOpened? ==> o == Onboarding(s, trigger.issue, trigger.body, prices, now, delivered)
    ensures clientReady && trigger.Schedule? ==> o == Sweeping(s, prices, delivered)
  {
    if !clientReady then Outcome(s, [], [])
    else match trigger
      case IssueOpened(issue, body) => Onboarding(s, issue, body, prices, now, delivered)
      case Schedule => Sweeping(s, prices, delivered)
      case Other => Outcome(s, [], [])
  }

  /** The process state: the `tracked` object, the data file's writes and the
      comments posted. */
  class Engine {
    var keys: seq<Url>
    var tracked: map<Url, Record>
    var saved: seq<Snapshot>
    var comments: seq<Comment>

    function Store(): Snapshot
      reads this
    {
      Snapshot(keys, tracked)
    }

    ghost predicate Valid()
      reads this
    {
      TrackingStore.Valid(Store())
    }

    /** The module-level load of `tracked` from the data file. */
    constructor (file: StoredFile)
      ensures Valid() && Store() == Load(file)
      ensures saved == [] && comments == []
    {
      keys, tracked := [], map[];
      saved, comments := [], [];
      if file.Present? {
        var content := JsText.Trim(file.content);
        if content != "" {
          match file.parsed
          case Some(entries) =>
            var loaded := FromEntries(entries);
            keys, tracked := loaded.keys, loaded.records;
          case None =>
            keys, tracked := [], map[];
        }
      }
    }

    method Onboard(issue: int, body: string, prices: Prices, now: string, delivered: Notifier)
      requires Valid()
      modifies this
      ensures Valid()
      ensures var o := Onboarding(old(Store()), issue, body, prices, now, delivered);
              Store() == o.store && saved == old(saved) + o.writes && comments == old(comments) + o.comments
    {
      var url := ExtractUrlFromIssue(body);
      if url.None? {
        if delivered(NoUrlFound(issue)) {
          comments := comments + [NoUrlFound(issue)];
        }
        return;
      }
      var result := prices(url.value);
      if result.Success? {
        var currentPrice := result.value;
        var stored := Put(Store(), url.value, Record(issue, currentPrice, now));
        keys, tracked := stored.keys, stored.records;
        saved := saved + [Store()];
        if delivered(Added(issue, url.value, currentPrice)) {
          comments := comments + [Added(issue, url.value, currentPrice)];
        } else if delivered(PriceUnavailable(issue, PostFailure)) {
          comments := comments + [PriceUnavailable(issue, PostFailure)];
        }
      } else if delivered(PriceUnavailable(issue, PriceFailure(result.error))) {
        comments := comments + [PriceUnavailable(issue, PriceFailure(result.error))];
      }
    }

    /** The body of the sweep loop for one tracked URL (the `try` block). */
    method Recheck(url: Url, prices: Prices, delivered: Notifier)
      requires url in tracked
      modifies this
      ensures keys == old(keys) && saved == old(saved)
      ensures var visit := Visit(url, old(tracked)[url], prices, delivered);
              tracked == old(tracked)[url := visit.0] && comments == old(comments) + visit.1
    {
      var data := tracked[url];
      var result := prices(url);
      if result.Success? {
        var currentPrice := result.value;
        if currentPrice < data.initialPrice {
          var drop := PriceDropped(data.issueNumber, data.initialPrice, currentPrice, url);
          if delivered(drop) {
            comments := comments + [drop];
            tracked := tracked[url := data.(initialPrice := currentPrice)];
            return;
          }
        }
      }
      assert tracked == tracked[url := data];
    }

    /** The sweep loop: each tracked URL in key order, one `Recheck` each. */
    method RecheckAll(prices: Prices, delivered: Notifier)
      requires Valid()
      modifies this
      ensures keys == old(keys) && saved == old(saved)
      ensures tracked == SweptPrefix(keys, old(tracked), |keys|, prices, delivered)
      ensures comments == old(comments) + SweepComments(keys, old(tracked), |keys|, prices, delivered)
    {
      ghost var start := Store();
      var entries := keys;
      var i := 0;
      while i < |entries|
        invariant 0 <= i <= |entries| && entries == start.keys && keys == start.keys
        invariant tracked == SweptPrefix(start.keys, start.records, i, prices, delivered)
        invariant comments == old(comments) + SweepComments(start.keys, start.records, i, prices, delivered)
        invariant saved == old(saved)
      {
        var url := entries[i];
        SweptPrefixNext(start, i, prices, delivered);
        Recheck(url, prices, delivered);
        i := i + 1;
      }
    }

    method Sweep(prices: Prices, delivered: Notifier)
      requires Valid()
      modifies this
      ensures Valid()
      ensures var o := Sweeping(old(Store()), prices, delivered);
              Store() == o.store && saved == old(saved) + o.writes && comments == old(comments) + o.comments
    {
      SweepByVisits(Store(), prices, delivered);
      RecheckAll(prices, delivered);
      saved := saved + [Store()];
    }

    method Run(trigger: Trigger, clientReady: bool, prices: Prices, now: string, delivered: Notifier)
      requires Valid()
      modifies this
      ensures Valid()
      ensures var o := Running(old(Store()), trigger, clientReady, prices, now, delivered);
              Store() == o.store && saved == old(saved) + o.writes && comments == old(comments) + o.comments
    {
      if !clientReady {
        return;
      }
      match trigger
      case IssueOpened(issue, body) => Onboard(issue, body, prices, now, delivered);
      case Schedule => Sweep(prices, delivered);
      case Other =>
    }
  }
}
