/** One run of the scraper (`main`): for each configured feed in order, the
    gofile links found in it are visited in sorted order; a link already in the
    seen set is skipped; otherwise its page is probed, a dead link joins the
    seen set, and a live link is uploaded and joins the seen set only when the
    upload succeeds. The seen set is written back, sorted, only when it grew.

    The browser and the network are replaced by an environment `Env` that
    answers, for the event about to happen (its index in the run's event log)
    and the link concerned, what the probed page shows and whether the upload
    goes through. */
module Run {
  import opened Wrappers
  import opened Strings
  import Extract
  import Liveness

  /** What the run does to the outside world, in order: a probe of a link with
      the verdict it gave, an upload attempt with its outcome. */
  datatype Event = Probe(url: string, alive: bool) | Upload(url: string, ok: bool)

  /** The browser as seen by the run: the page text rendered for the event at a
      given index of the log (`None`: navigation or reading failed), and whether
      an upload at a given index succeeds. */
  datatype Env = Env(render: (nat, string) -> Option<string>, upload: (nat, string) -> bool)

  /** The run's state: the seen set, the `new_seen` flag, and the events so far. */
  datatype RunState = RunState(seen: set<string>, newSeen: bool, log: seq<Event>)

  function Start(seen0: set<string>): RunState {
    RunState(seen0, false, [])
  }

  /** `collect_gofile_urls_from_rss` once the feed has been fetched: a failed
      fetch (`None`) contributes no links, a fetched body its extracted links. */
  function CollectUrls(feed: Option<string>): set<string> {
    match feed
    case None => {}
    case Some(body) => Extract.ExtractLinks(body)
  }

  /** The events that put their link into the seen set: a probe that found the
      link dead, an upload that succeeded. */
  predicate Resolves(e: Event) {
    (e.Probe? && !e.alive) || (e.Upload? && e.ok)
  }

  function Resolved(events: seq<Event>): set<string> {
    set e | e in events && Resolves(e) :: e.url
  }

  /** One iteration of the inner loop of `main`, for link `url`. */
  function VisitUrl(st: RunState, url: string, env: Env): RunState {
    if url in st.seen then st
    else
      var alive := Liveness.Alive(env.render(|st.log|, url));
      var probed := st.log + [Probe(url, alive)];
      if !alive then RunState(st.seen + {url}, true, probed)
      else
        var ok := env.upload(|probed|, url);
        var uploaded := probed + [Upload(url, ok)];
        if ok then RunState(st.seen + {url}, true, uploaded)
        else RunState(st.seen, st.newSeen, uploaded)
  }

  /** The inner loop over the links of one feed, in the order given. */
  function VisitUrls(st: RunState, urls: seq<string>, env: Env): RunState
    decreases |urls|
  {
    if urls == [] then st
    else VisitUrl(VisitUrls(st, urls[..|urls| - 1], env), urls[|urls| - 1], env)
  }

  /** The outer loop over the feeds, each one's links visited in sorted order. */
  function VisitSources(st: RunState, feeds: seq<Option<string>>, env: Env): RunState
    decreases |feeds|
  {
    if feeds == [] then st
    else
      var urls := SortedList(CollectUrls(feeds[|feeds| - 1]));
      VisitUrls(VisitSources(st, feeds[..|feeds| - 1], env), urls, env)
  }

  /** The ledger as `save_seen_urls` writes it: the seen links, sorted, each once. */
  function SavedLedger(seen: set<string>): (r: seq<string>)
    ensures StrictlySorted(r)
    ensures forall x :: x in r <==> x in seen
  {
    SortedList(seen)
  }

  /** Reading the written ledger back as a set (`set(urls)` in
      `load_seen_urls`) gives the seen set that was saved. */
  lemma LedgerRoundTrip(seen: set<string>)
    ensures (set x | x in SavedLedger(seen)) == seen
  {
  }

  /** Event `e`, found at index `k` of the log, agrees with the environment. */
  predicate Recorded(e: Event, k: nat, env: Env) {
    match e
    case Probe(u, alive) => alive == Liveness.Alive(env.render(k, u))
    case Upload(u, ok) => ok == env.upload(k, u)
  }

  /** Every event of `log` from index `from` on agrees with the environment. */
  predicate AllRecorded(log: seq<Event>, from: nat, env: Env) {
    forall k | from <= k < |log| :: Recorded(log[k], k, env)
  }

  /** No event of `log` from index `from` on probes a link that was in `seen`
      or had been resolved by an earlier event since `from`. */
  predicate NoRevisit(seen: set<string>, log: seq<Event>, from: nat)
    requires from <= |log|
  {
    forall k | from <= k < |log| && log[k].Probe? :: log[k].url !in seen + Resolved(log[from..k])
  }

  /** Every upload from index `from` on comes right after a probe, also from
      `from` on, that found the same link alive. */
  predicate UploadsFollowAliveProbes(log: seq<Event>, from: nat) {
    forall k | from <= k < |log| && log[k].Upload? :: from < k && log[k - 1] == Probe(log[k].url, true)
  }

  /** Every probe from index `from` on that found its link alive is followed
      right away by an upload of that link. */
  predicate AliveProbesUploaded(log: seq<Event>, from: nat) {
    forall k | from <= k < |log| && log[k].Probe? && log[k].alive ::
      k + 1 < |log| && log[k + 1].Upload? && log[k + 1].url == log[k].url
  }

  /** How the run may get from state `a` to state `b`:
      - the log only grows;
      - the seen set gains exactly the links that the new events resolved;
      - the flag is set exactly when the seen set grew (or was set before);
      - every new event agrees with the environment;
      - no link is probed while it is in the seen set;
      - every upload comes right after a probe that found its link alive, and
        every such probe is followed by an upload. */
  predicate Evolves(a: RunState, b: RunState, env: Env) {
    && |a.log| <= |b.log| && b.log[..|a.log|] == a.log
    && b.seen == a.seen + Resolved(b.log[|a.log|..])
    && b.newSeen == (a.newSeen || a.seen < b.seen)
    && LogLaws(a.seen, b.log, |a.log|, env)
  }

  /** The laws of the events from index `from` on, for a run that had seen
      `seen` at that point. */
  predicate LogLaws(seen: set<string>, log: seq<Event>, from: nat, env: Env)
    requires from <= |log|
  {
    && AllRecorded(log, from, env)
    && NoRevisit(seen, log, from)
    && UploadsFollowAliveProbes(log, from)
    && AliveProbesUploaded(log, from)
  }

  lemma ResolvedConcat(x: seq<Event>, y: seq<Event>)
    ensures Resolved(x + y) == Resolved(x) + Resolved(y)
  {
    assert forall e :: e in x + y <==> e in x || e in y;
  }

  lemma EvolvesReflexive(st: RunState, env: Env)
    ensures Evolves(st, st, env)
  {
    assert st.log[..|st.log|] == st.log;
    assert st.log[|st.log|..] == [];
  }

  lemma AllRecordedTransitive(b: seq<Event>, c: seq<Event>, na: nat, env: Env)
    requires na <= |b| <= |c| && c[..|b|] == b
    requires AllRecorded(b, na, env) && AllRecorded(c, |b|, env)
    ensures AllRecorded(c, na, env)
  {
    forall k | na <= k < |b|
      ensures Recorded(c[k], k, env)
    {
      assert c[k] == b[k];
    }
  }

  lemma NoRevisitTransitive(sa: set<string>, b: seq<Event>, c: seq<Event>, na: nat)
    requires na <= |b| <= |c| && c[..|b|] == b
    requires NoRevisit(sa, b, na)
    requires NoRevisit(sa + Resolved(b[na..]), c, |b|)
    ensures NoRevisit(sa, c, na)
  {
    var nb := |b|;
    forall k | na <= k < |c| && c[k].Probe?
      ensures c[k].url !in sa + Resolved(c[na..k])
    {
      if k < nb {
        assert c[k] == b[k];
        assert c[na..k] == c[..nb][na..k] == b[na..k];
      } else {
        assert c[na..k] == b[na..] + c[nb..k];
        ResolvedConcat(b[na..], c[nb..k]);
      }
    }
  }

  lemma UploadsTransitive(b: seq<Event>, c: seq<Event>, na: nat)
    requires na <= |b| <= |c| && c[..|b|] == b
    requires UploadsFollowAliveProbes(b, na) && UploadsFollowAliveProbes(c, |b|)
    ensures UploadsFollowAliveProbes(c, na)
  {
    forall k | na <= k < |b| && c[k].Upload?
      ensures na < k && c[k - 1] == Probe(c[k].url, true)
    {
      assert c[k] == b[k];
      assert c[k - 1] == b[k - 1];
    }
  }

  lemma AliveProbesTransitive(b: seq<Event>, c: seq<Event>, na: nat)
    requires na <= |b| <= |c| && c[..|b|] == b
    requires AliveProbesUploaded(b, na) && AliveProbesUploaded(c, |b|)
    ensures AliveProbesUploaded(c, na)
  {
    forall k | na <= k < |b| && c[k].Probe? && c[k].alive
      ensures k + 1 < |c| && c[k + 1].Upload? && c[k + 1].url == c[k].url
    {
      assert c[k] == b[k];
      assert c[k + 1] == b[k + 1];
    }
  }

  lemma LogLawsTransitive(sa: set<string>, b: seq<Event>, c: seq<Event>, na: nat, env: Env)
    requires na <= |b| <= |c| && c[..|b|] == b
    requires LogLaws(sa, b, na, env)
    requires LogLaws(sa + Resolved(b[na..]), c, |b|, env)
    ensures LogLaws(sa, c, na, env)
  {
    AllRecordedTransitive(b, c, na, env);
    NoRevisitTransitive(sa, b, c, na);
    UploadsTransitive(b, c, na);
    AliveProbesTransitive(b, c, na);
  }

  lemma LogSplit(a: seq<Event>, b: seq<Event>, c: seq<Event>)
    requires |a| <= |b| && b[..|a|] == a
    requires |b| <= |c| && c[..|b|] == b
    ensures |a| <= |c| && c[..|a|] == a
    ensures c[|a|..] == b[|a|..] + c[|b|..]
  {
    assert c[..|a|] == c[..|b|][..|a|];
  }

  lemma SeenLawsTransitive(sa: set<string>, sb: set<string>, sc: set<string>, fa: bool, fb: bool, fc: bool,
                           nb: seq<Event>, nc: seq<Event>)
    requires sb == sa + Resolved(nb) && fb == (fa || sa < sb)
    requires sc == sb + Resolved(nc) && fc == (fb || sb < sc)
    ensures sc == sa + Resolved(nb + nc) && fc == (fa || sa < sc)
  {
    ResolvedConcat(nb, nc);
  }

  lemma EvolvesTransitive(a: RunState, b: RunState, c: RunState, env: Env)
    requires Evolves(a, b, env) && Evolves(b, c, env)
    ensures Evolves(a, c, env)
  {
    var na, nb := |a.log|, |b.log|;
    LogSplit(a.log, b.log, c.log);
    SeenLawsTransitive(a.seen, b.seen, c.seen, a.newSeen, b.newSeen, c.newSeen, b.log[na..], c.log[nb..]);
    LogLawsTransitive(a.seen, b.log, c.log, na, env);
  }

  /** A probe that finds a link dead puts it into the seen set. */
  lemma DeadStepEvolves(st: RunState, url: string, env: Env)
    requires url !in st.seen && !Liveness.Alive(env.render(|st.log|, url))
    ensures Evolves(st, RunState(st.seen + {url}, true, st.log + [Probe(url, false)]), env)
  {
    var n := |st.log|;
    var log := st.log + [Probe(url, false)];
    assert log[..n] == st.log;
    assert log[n..] == [Probe(url, false)];
    assert Resolved([Probe(url, false)]) == {url};
    assert log[n] == Probe(url, false);
    assert LogLaws(st.seen, log, n, env) by {
      assert log[n..n] == [];
    }
  }

  /** The event laws of a probe that found `url` alive and the upload after it. */
  lemma AliveEventsLawful(seen: set<string>, log0: seq<Event>, url: string, ok: bool, env: Env)
    requires url !in seen
    requires Liveness.Alive(env.render(|log0|, url)) && ok == env.upload(|log0| + 1, url)
    ensures LogLaws(seen, log0 + [Probe(url, true), Upload(url, ok)], |log0|, env)
  {
    var n := |log0|;
    var log := log0 + [Probe(url, true), Upload(url, ok)];
    assert log[n] == Probe(url, true) && log[n + 1] == Upload(url, ok);
    assert log[n..n] == [];
  }

  /** A probe that finds a link alive is followed by an upload; the link joins
      the seen set exactly when the upload succeeds. */
  lemma AliveStepEvolves(st: RunState, url: string, env: Env)
    requires url !in st.seen && Liveness.Alive(env.render(|st.log|, url))
    ensures var ok := env.upload(|st.log| + 1, url);
      Evolves(st, RunState(if ok then st.seen + {url} else st.seen, ok || st.newSeen,
                           st.log + [Probe(url, true), Upload(url, ok)]), env)
  {
    var n := |st.log|;
    var ok := env.upload(n + 1, url);
    var log := st.log + [Probe(url, true), Upload(url, ok)];
    assert log[..n] == st.log;
    assert log[n..] == [Probe(url, true)] + [Upload(url, ok)];
    ResolvedConcat([Probe(url, true)], [Upload(url, ok)]);
    assert Resolved([Probe(url, true)]) == {};
    assert Resolved([Upload(url, ok)]) == if ok then {url} else {};
    AliveEventsLawful(st.seen, st.log, url, ok, env);
  }

  /** A link in the seen set is skipped and nothing happens. Otherwise the
      link is probed first, with the verdict of the page the environment
      renders, and at most one more event follows; every new event is about
      `url`, and the seen set gains at most `url`. */
  lemma VisitUrlSkipsOrProbes(st: RunState, url: string, env: Env)
    ensures url in st.seen ==> VisitUrl(st, url, env) == st
    ensures var r := VisitUrl(st, url, env);
      && |st.log| <= |r.log| <= |st.log| + 2 && r.log[..|st.log|] == st.log
      && (url !in st.seen ==>
            |st.log| < |r.log| && r.log[|st.log|] == Probe(url, Liveness.Alive(env.render(|st.log|, url))))
      && (forall k | |st.log| <= k < |r.log| :: r.log[k].url == url)
      && r.seen - st.seen <= {url}
  {
    var r := VisitUrl(st, url, env);
    var n := |st.log|;
    if url !in st.seen {
      assert r.log[n] == Probe(url, Liveness.Alive(env.render(n, url)));
      assert r.log[..n] == st.log;
    }
  }

  /** One visit keeps the ledger laws. */
  lemma VisitUrlEvolves(st: RunState, url: string, env: Env)
    ensures Evolves(st, VisitUrl(st, url, env), env)
  {
    if url in st.seen {
      EvolvesReflexive(st, env);
    } else if Liveness.Alive(env.render(|st.log|, url)) {
      var ok := env.upload(|st.log| + 1, url);
      assert VisitUrl(st, url, env) == RunState(if ok then st.seen + {url} else st.seen, ok || st.newSeen,
                                                st.log + [Probe(url, true), Upload(url, ok)]);
      AliveStepEvolves(st, url, env);
    } else {
      assert VisitUrl(st, url, env) == RunState(st.seen + {url}, true, st.log + [Probe(url, false)]);
      DeadStepEvolves(st, url, env);
    }
  }

  lemma {:induction false} VisitUrlsEvolves(st: RunState, urls: seq<string>, env: Env)
    ensures Evolves(st, VisitUrls(st, urls, env), env)
    decreases |urls|
  {
    if urls == [] {
      EvolvesReflexive(st, env);
    } else {
      var mid := VisitUrls(st, urls[..|urls| - 1], env);
      VisitUrlsEvolves(st, urls[..|urls| - 1], env);
      VisitUrlEvolves(mid, urls[|urls| - 1], env);
      EvolvesTransitive(st, mid, VisitUrls(st, urls, env), env);
    }
  }

  lemma {:induction false} VisitSourcesEvolves(st: RunState, feeds: seq<Option<string>>, env: Env)
    ensures Evolves(st, VisitSources(st, feeds, env), env)
    decreases |feeds|
  {
    if feeds == [] {
      EvolvesReflexive(st, env);
    } else {
      var mid := VisitSources(st, feeds[..|feeds| - 1], env);
      VisitSourcesEvolves(st, feeds[..|feeds| - 1], env);
      VisitUrlsEvolves(mid, SortedList(CollectUrls(feeds[|feeds| - 1])), env);
      EvolvesTransitive(st, mid, VisitSources(st, feeds, env), env);
    }
  }

  /** The ledger laws of a whole run started from the loaded seen set `seen0`:
      the seen set only grows, and it grows by exactly the links found dead or
      uploaded; the flag is set exactly when it grew; no link that was seen, or
      resolved earlier in the run, is probed; every upload follows a probe that
      found that link alive; every verdict and upload outcome is the
      environment's. */
  lemma RunLedgerLaws(feeds: seq<Option<string>>, seen0: set<string>, env: Env)
    ensures var r := VisitSources(Start(seen0), feeds, env);
      && seen0 <= r.seen
      && r.seen == seen0 + Resolved(r.log)
      && (r.newSeen <==> seen0 < r.seen)
      && NoRevisit(seen0, r.log, 0)
      && UploadsFollowAliveProbes(r.log, 0)
      && AliveProbesUploaded(r.log, 0)
      && AllRecorded(r.log, 0, env)
  {
    var r := VisitSources(Start(seen0), feeds, env);
    VisitSourcesEvolves(Start(seen0), feeds, env);
    assert r.log[0..] == r.log;
  }

  /** The link has been dealt with: it is in the seen set or has been probed. */
  predicate Handled(st: RunState, u: string) {
    u in st.seen || exists k | 0 <= k < |st.log| :: st.log[k].Probe? && st.log[k].url == u
  }

  lemma EvolvesKeepsHandled(a: RunState, b: RunState, u: string, env: Env)
    requires Evolves(a, b, env) && Handled(a, u)
    ensures Handled(b, u)
  {
    if u !in a.seen {
      var k :| 0 <= k < |a.log| && a.log[k].Probe? && a.log[k].url == u;
      assert b.log[k] == b.log[..|a.log|][k];
    }
  }

  /** After the inner loop every link of the feed has been dealt with. */
  lemma {:induction false} VisitUrlsHandlesAll(st: RunState, urls: seq<string>, env: Env)
    ensures forall u :: u in urls ==> Handled(VisitUrls(st, urls, env), u)
    decreases |urls|
  {
    if urls != [] {
      var front, last := urls[..|urls| - 1], urls[|urls| - 1];
      var mid := VisitUrls(st, front, env);
      var r := VisitUrls(st, urls, env);
      VisitUrlsHandlesAll(st, front, env);
      VisitUrlEvolves(mid, last, env);
      forall u | u in urls
        ensures Handled(r, u)
      {
        if u == last {
          if u !in mid.seen {
            assert r.log[|mid.log|].Probe? && r.log[|mid.log|].url == u;
          }
        } else {
          assert u in front;
          EvolvesKeepsHandled(mid, r, u, env);
        }
      }
    }
  }

  /** No link is passed over: after the run, every link extracted from any
      feed is in the seen set or has been probed. */
  lemma {:induction false} RunHandlesAll(st: RunState, feeds: seq<Option<string>>, env: Env)
    ensures forall i, u :: 0 <= i < |feeds| && u in CollectUrls(feeds[i]) ==>
      Handled(VisitSources(st, feeds, env), u)
    decreases |feeds|
  {
    if feeds != [] {
      var n := |feeds| - 1;
      var mid := VisitSources(st, feeds[..n], env);
      var r := VisitSources(st, feeds, env);
      var urls := SortedList(CollectUrls(feeds[n]));
      RunHandlesAll(st, feeds[..n], env);
      VisitUrlsEvolves(mid, urls, env);
      VisitUrlsHandlesAll(mid, urls, env);
      forall i, u | 0 <= i < |feeds| && u in CollectUrls(feeds[i])
        ensures Handled(r, u)
      {
        if i < n {
          assert feeds[..n][i] == feeds[i];
          EvolvesKeepsHandled(mid, r, u, env);
        }
      }
    }
  }

  /** Every event of `log` from index `from` on is about a link of `urls`. */
  predicate EventsAmong(log: seq<Event>, from: nat, urls: seq<string>) {
    forall k | from <= k < |log| :: log[k].url in urls
  }

  /** The probes of `log` from index `from` on are in strictly increasing
      order of link. */
  predicate ProbesIncrease(log: seq<Event>, from: nat) {
    forall i, j | from <= i < j < |log| && log[i].Probe? && log[j].Probe? :: Less(log[i].url, log[j].url)
  }

  /** Within one feed, links are visited in the order of `urls`: every event is
      about a link of `urls`, and for a strictly increasing `urls` (the sorted
      listing) the probes come in strictly increasing order of link. */
  lemma {:induction false} VisitUrlsInOrder(st: RunState, urls: seq<string>, env: Env)
    requires StrictlySorted(urls)
    ensures EventsAmong(VisitUrls(st, urls, env).log, |st.log|, urls)
    ensures ProbesIncrease(VisitUrls(st, urls, env).log, |st.log|)
    decreases |urls|
  {
    if urls != [] {
      var front, last := urls[..|urls| - 1], urls[|urls| - 1];
      var mid := VisitUrls(st, front, env);
      var r := VisitUrls(st, urls, env);
      VisitUrlsInOrder(st, front, env);
      VisitUrlsEvolves(st, front, env);
      VisitUrlEvolves(mid, last, env);
      var m, n := |st.log|, |mid.log|;
      forall k | n <= k < |r.log|
        ensures r.log[k].url == last && (k > n ==> r.log[k].Upload?)
      {
        if k > n {
          assert r.log[k] == Upload(last, r.log[k].ok);
        }
      }
      forall k | m <= k < n
        ensures r.log[k] == mid.log[k] && r.log[k].url in front
      {
        assert r.log[k] == r.log[..n][k];
      }
      forall i, j | m <= i < j < |r.log| && r.log[i].Probe? && r.log[j].Probe?
        ensures Less(r.log[i].url, r.log[j].url)
      {
        if j >= n && i < n {
          var q :| 0 <= q < |front| && front[q] == r.log[i].url;
          assert urls[q] == front[q];
        }
      }
    }
  }

  /** The links extracted from any of the feeds. */
  function FeedLinks(feeds: seq<Option<string>>): (r: set<string>)
    ensures forall i | 0 <= i < |feeds| :: CollectUrls(feeds[i]) <= r
    ensures forall u | u in r :: exists i | 0 <= i < |feeds| :: u in CollectUrls(feeds[i])
    decreases |feeds|
  {
    if feeds == [] then {}
    else
      var n := |feeds| - 1;
      assert forall i | 0 <= i < n :: feeds[..n][i] == feeds[i];
      FeedLinks(feeds[..n]) + CollectUrls(feeds[n])
  }

  lemma FeedLinksPrefix(feeds: seq<Option<string>>, n: nat)
    requires n <= |feeds|
    ensures FeedLinks(feeds[..n]) <= FeedLinks(feeds)
  {
    forall u | u in FeedLinks(feeds[..n])
      ensures u in FeedLinks(feeds)
    {
      var i :| 0 <= i < n && u in CollectUrls(feeds[..n][i]);
      assert feeds[..n][i] == feeds[i];
      assert CollectUrls(feeds[i]) <= FeedLinks(feeds);
    }
  }

  /** Every event of a run is about a link extracted from one of its feeds. */
  lemma {:induction false} RunEventsAmongFeedLinks(st: RunState, feeds: seq<Option<string>>, env: Env)
    ensures var r := VisitSources(st, feeds, env);
      |st.log| <= |r.log| && forall k | |st.log| <= k < |r.log| :: r.log[k].url in FeedLinks(feeds)
    decreases |feeds|
  {
    var r := VisitSources(st, feeds, env);
    VisitSourcesEvolves(st, feeds, env);
    if feeds != [] {
      var n := |feeds| - 1;
      var mid := VisitSources(st, feeds[..n], env);
      var urls := SortedList(CollectUrls(feeds[n]));
      RunEventsAmongFeedLinks(st, feeds[..n], env);
      FeedLinksPrefix(feeds, n);
      VisitUrlsEvolves(mid, urls, env);
      VisitUrlsInOrder(mid, urls, env);
      forall k | |st.log| <= k < |r.log|
        ensures r.log[k].url in FeedLinks(feeds)
      {
        if k < |mid.log| {
          assert r.log[k] == r.log[..|mid.log|][k];
        } else {
          assert r.log[k].url in CollectUrls(feeds[n]);
        }
      }
    }
  }

  /** A seen set grown by the resolved events of a log grows only by links
      the events are about. */
  lemma ResolvedAmong(seen0: set<string>, log: seq<Event>, links: set<string>)
    requires forall k | 0 <= k < |log| :: log[k].url in links
    ensures seen0 + Resolved(log) <= seen0 + links
  {
    forall u | u in Resolved(log)
      ensures u in links
    {
      var e :| e in log && Resolves(e) && e.url == u;
      var k :| 0 <= k < |log| && log[k] == e;
    }
  }

  /** A run touches only the links of its feeds: every event is about a link
      extracted from one of them, and the seen set gains no other link. */
  lemma RunTouchesOnlyFeedLinks(feeds: seq<Option<string>>, seen0: set<string>, env: Env)
    ensures var r := VisitSources(Start(seen0), feeds, env);
      && (forall k | 0 <= k < |r.log| :: r.log[k].url in FeedLinks(feeds))
      && r.seen <= seen0 + FeedLinks(feeds)
  {
    var r := VisitSources(Start(seen0), feeds, env);
    RunEventsAmongFeedLinks(Start(seen0), feeds, env);
    RunLedgerLaws(feeds, seen0, env);
    ResolvedAmong(seen0, r.log, FeedLinks(feeds));
  }

  /** A run in which every extracted link is already in the seen set probes
      nothing, uploads nothing and leaves the state as it was, so nothing is
      saved. */
  lemma {:induction false} QuietWhenAllSeen(st: RunState, feeds: seq<Option<string>>, env: Env)
    requires forall i, u :: 0 <= i < |feeds| && u in CollectUrls(feeds[i]) ==> u in st.seen
    ensures VisitSources(st, feeds, env) == st
    decreases |feeds|
  {
    if feeds != [] {
      var n := |feeds| - 1;
      forall i, u | 0 <= i < n && u in CollectUrls(feeds[..n][i])
        ensures u in st.seen
      {
        assert feeds[..n][i] == feeds[i];
      }
      QuietWhenAllSeen(st, feeds[..n], env);
      AllSeenUrlsUnchanged(st, SortedList(CollectUrls(feeds[n])), env);
    }
  }

  lemma {:induction false} AllSeenUrlsUnchanged(st: RunState, urls: seq<string>, env: Env)
    requires forall u :: u in urls ==> u in st.seen
    ensures VisitUrls(st, urls, env) == st
    decreases |urls|
  {
    if urls != [] {
      AllSeenUrlsUnchanged(st, urls[..|urls| - 1], env);
    }
  }

  /** A link that was dealt with in a run without failed uploads ends up in
      the seen set: a probe either found it dead or was followed by an upload,
      which succeeded. */
  lemma HandledWithoutFailedUploadIsSeen(seen0: set<string>, r: RunState, u: string)
    requires r.seen == seen0 + Resolved(r.log)
    requires AliveProbesUploaded(r.log, 0)
    requires forall k | 0 <= k < |r.log| && r.log[k].Upload? :: r.log[k].ok
    requires Handled(r, u)
    ensures u in r.seen
  {
    if exists k | 0 <= k < |r.log| :: r.log[k].Probe? && r.log[k].url == u {
      var k :| 0 <= k < |r.log| && r.log[k].Probe? && r.log[k].url == u;
      var e := if r.log[k].alive then r.log[k + 1] else r.log[k];
      assert e in r.log && Resolves(e) && e.url == u;
    }
  }

  /** Running the same feeds a second time, from the seen set the first run
      saved, probes nothing and saves nothing, provided no upload failed in the
      first run: every link of the feeds was then already seen, found dead or
      uploaded. The environment of the second run may differ from the first. */
  lemma SecondRunQuiet(feeds: seq<Option<string>>, seen0: set<string>, env1: Env, env2: Env)
    requires var r := VisitSources(Start(seen0), feeds, env1);
      forall k | 0 <= k < |r.log| && r.log[k].Upload? :: r.log[k].ok
    ensures var r := VisitSources(Start(seen0), feeds, env1);
      VisitSources(Start(r.seen), feeds, env2) == Start(r.seen)
  {
    var r := VisitSources(Start(seen0), feeds, env1);
    RunHandlesAll(Start(seen0), feeds, env1);
    RunLedgerLaws(feeds, seen0, env1);
    forall i, u | 0 <= i < |feeds| && u in CollectUrls(feeds[i])
      ensures u in r.seen
    {
      HandledWithoutFailedUploadIsSeen(seen0, r, u);
    }
    QuietWhenAllSeen(Start(r.seen), feeds, env2);
  }

  /** One pass of the inner loop of `main`, for link `url`: skip it when it is
      in the seen set; otherwise probe it, record it when it is dead, and
      otherwise upload it and record it when the upload succeeds. */
  method VisitLink(url: string, seen: set<string>, newSeen: bool, events: seq<Event>, env: Env)
    returns (seen': set<string>, newSeen': bool, events': seq<Event>)
    ensures RunState(seen', newSeen', events') == VisitUrl(RunState(seen, newSeen, events), url, env)
  {
    seen', newSeen', events' := seen, newSeen, events;
    if url in seen {
      return;
    }
    var alive := Liveness.IsGofileAlive(env.render(|events'|, url));
    events' := events' + [Probe(url, alive)];
    if !alive {
      seen' := seen' + {url};
      newSeen' := true;
      return;
    }
    var ok := env.upload(|events'|, url);
    events' := events' + [Upload(url, ok)];
    if ok {
      seen' := seen' + {url};
      newSeen' := true;
    }
  }

  /** The body of `main` once the sources and the seen set are loaded: `feeds`
      holds, per configured source in order, the fetched feed body or `None`
      when the fetch failed. Returns the final seen set, the `new_seen` flag,
      the events of the run and what is written to the ledger file (`None`
      when nothing is written). */
  method RunScraper(feeds: seq<Option<string>>, seen0: set<string>, env: Env)
    returns (seen: set<string>, newSeen: bool, events: seq<Event>, saved: Option<seq<string>>)
    ensures RunState(seen, newSeen, events) == VisitSources(Start(seen0), feeds, env)
    ensures seen == seen0 + Resolved(events)
    ensures newSeen <==> seen0 < seen
    ensures NoRevisit(seen0, events, 0)
    ensures seen <= seen0 + FeedLinks(feeds)
    ensures forall k | 0 <= k < |events| :: events[k].url in FeedLinks(feeds)
    ensures saved == if newSeen then Some(SavedLedger(seen)) else None
  {
    seen, newSeen, events := seen0, false, [];
    for i := 0 to |feeds|
      invariant RunState(seen, newSeen, events) == VisitSources(Start(seen0), feeds[..i], env)
    {
      var urls := CollectUrls(feeds[i]);
      var order := SortedList(urls);
      ghost var before := RunState(seen, newSeen, events);
      for j := 0 to |order|
        invariant RunState(seen, newSeen, events) == VisitUrls(before, order[..j], env)
      {
        var url := order[j];
        assert order[..j + 1][..j] == order[..j];
        seen, newSeen, events := VisitLink(url, seen, newSeen, events, env);
      }
      assert order[..|order|] == order;
      assert feeds[..i + 1][..i] == feeds[..i];
    }
    assert feeds[..|feeds|] == feeds;
    assert seen == seen0 + Resolved(events) && (newSeen <==> seen0 < seen) && NoRevisit(seen0, events, 0) by {
      RunLedgerLaws(feeds, seen0, env);
    }
    assert seen <= seen0 + FeedLinks(feeds) && forall k | 0 <= k < |events| :: events[k].url in FeedLinks(feeds) by {
      RunTouchesOnlyFeedLinks(feeds, seen0, env);
    }
    if newSeen {
      saved := Some(SavedLedger(seen));
    } else {
      saved := None;
    }
  }
}
