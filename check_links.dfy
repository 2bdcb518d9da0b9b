// The link checker: where URLs are found (the YAML records, markdown,
// templates, static assets), how one URL is probed (rate limit, retries,
// back-off, GET fallback), how the results are fanned out to every place the
// URL occurs, classified and summarised.  The network is replaced by the
// outcomes it gave; the regular expressions by the matches they produced.

module LinkCheck {
  import opened Strings
  import opened Sorting
  import opened Grouping
  import opened YamlValue
  import Schema

  // ------------------------------------------------------ classification

  datatype Status = Success | Warning | Error

  /**
   * The label of a status code (0 stands for "no response").  Informational,
   * success and redirection classes pass; authentication, rate limiting and
   * server errors are only warnings; every other client error fails.
   */
  function Classify(code: int): (s: Status)
    ensures s == Success <==> code != 0 && code < 400
    ensures s == Warning <==> code == 401 || code == 403 || code == 429 || code >= 500
    ensures s == Error <==> code == 0 || (400 <= code < 500 && code != 401 && code != 403 && code != 429)
  {
    if code == 0 then Error
    else if code < 400 then Success
    else if code == 403 || code == 401 then Warning
    else if code == 429 then Warning
    else if code >= 500 then Warning
    else Error
  }

  /** Read by status-code class: 1xx-3xx pass, 5xx warn, 4xx fail except 401, 403 and 429. */
  lemma ClassifyByClass(code: int)
    requires 100 <= code <= 599
    ensures code / 100 <= 3 ==> Classify(code) == Success
    ensures code / 100 == 5 ==> Classify(code) == Warning
    ensures code / 100 == 4 ==> (Classify(code) == Warning <==> code in {401, 403, 429})
  {
  }

  datatype SourceType = Yaml | Markdown | Template | Static

  /** The kind of file a URL was found in, judged from its path. */
  function SourceTypeOf(path: string): (t: SourceType)
    ensures t == Yaml <==> IsSuffix(".yml", path) || IsSuffix(".yaml", path)
    ensures t == Markdown <==> !(IsSuffix(".yml", path) || IsSuffix(".yaml", path)) && IsSuffix(".md", path)
    ensures t == Template <==> !(IsSuffix(".yml", path) || IsSuffix(".yaml", path) || IsSuffix(".md", path))
                               && (Contains(path, ".jinja") || IsSuffix(".html", path))
  {
    if IsSuffix(".yml", path) || IsSuffix(".yaml", path) then Yaml
    else if IsSuffix(".md", path) then Markdown
    else if Contains(path, ".jinja") || IsSuffix(".html", path) then Template
    else Static
  }

  lemma SourceTypeExamples()
    ensures SourceTypeOf("data/agents/langchain.yml") == Yaml
    ensures SourceTypeOf("docs/CONTRIBUTING.md") == Markdown
    ensures SourceTypeOf("templates/base.html") == Template
  {
  }

  /** A Jinja template is a template whatever its last extension. */
  lemma JinjaIsTemplate(stem: string, ext: string)
    requires !(IsSuffix(".yml", stem + ".jinja" + ext) || IsSuffix(".yaml", stem + ".jinja" + ext))
    requires !IsSuffix(".md", stem + ".jinja" + ext)
    ensures SourceTypeOf(stem + ".jinja" + ext) == Template
  {
    var p := stem + ".jinja" + ext;
    assert p[|stem|..|stem| + 6] == ".jinja";
    ContainsAt(p, ".jinja", |stem|);
  }

  /** One line of the report. */
  datatype UrlCheck = UrlCheck(
    url: string,
    status: Status,
    statusCode: int,
    errorMessage: Option<string>,
    sourceFile: string,
    sourceType: SourceType,
    fieldName: string)

  // ------------------------------------------------------------- summary

  /** `len([r for r in results if r.status == st])` */
  function CountStatus(results: seq<UrlCheck>, st: Status): (n: nat)
    ensures n <= |results|
  {
    if results == [] then 0
    else CountStatus(results[..|results| - 1], st) + if results[|results| - 1].status == st then 1 else 0
  }

  lemma {:induction false} CountsPartition(results: seq<UrlCheck>)
    ensures CountStatus(results, Success) + CountStatus(results, Warning) + CountStatus(results, Error) == |results|
  {
    if results != [] {
      CountsPartition(results[..|results| - 1]);
    }
  }

  datatype Summary = Summary(total: nat, success: nat, warnings: nat, errors: nat)

  /** The `summary` block of the saved report. */
  function Summarize(results: seq<UrlCheck>): (s: Summary)
    ensures s.total == |results|
    ensures s.total == s.success + s.warnings + s.errors
  {
    CountsPartition(results);
    Summary(|results|, CountStatus(results, Success), CountStatus(results, Warning), CountStatus(results, Error))
  }

  // ---------------------------------------------------------- rate limiter

  /** One second on the model's integer clock, which counts milliseconds. */
  const Second: int := 1000

  /** The timestamps still inside the one-second window ending at `now`, in order. */
  function Recent(ts: seq<int>, now: int): (r: seq<int>)
    ensures |r| <= |ts|
    ensures forall x :: x in r <==> x in ts && now - x < Second
  {
    if ts == [] then []
    else
      var init := ts[..|ts| - 1];
      assert ts == init + [ts[|ts| - 1]];
      Recent(init, now) + if now - ts[|ts| - 1] < Second then [ts[|ts| - 1]] else []
  }

  lemma RecentSnoc(ts: seq<int>, x: int, now: int)
    ensures Recent(ts + [x], now) == Recent(ts, now) + if now - x < Second then [x] else []
  {
    assert (ts + [x])[..|ts|] == ts;
  }

  /** Later windows hold no more stamps than earlier ones. */
  lemma {:induction false} RecentLater(ts: seq<int>, a: int, b: int)
    requires a <= b
    ensures |Recent(ts, b)| <= |Recent(ts, a)|
  {
    if ts != [] {
      RecentLater(ts[..|ts| - 1], a, b);
    }
  }

  /** A stamp that has left the window makes the window strictly smaller than the list. */
  lemma {:induction false} RecentDrops(ts: seq<int>, now: int, i: nat)
    requires i < |ts| && now - ts[i] >= Second
    ensures |Recent(ts, now)| < |ts|
  {
    var init := ts[..|ts| - 1];
    if i < |ts| - 1 {
      RecentDrops(init, now, i);
    }
  }

  /** Why the limiter gave up: it looked at the oldest stamp of an empty window. */
  datatype LimiterFault = EmptyWindow

  /**
   * How long to sleep given the window `kept`: the time until its oldest stamp
   * leaves, when the window is full and that time is positive; no sleep
   * otherwise.  A limit of zero or less with an empty window indexes an empty
   * list.
   */
  function WaitFor(kept: seq<int>, now: int, maxPerSecond: int): (r: Result<int, LimiterFault>)
    ensures r.Err? <==> |kept| >= maxPerSecond && kept == []
    ensures r.Ok? ==> r.value >= 0
    ensures r.Ok? && r.value > 0 ==> |kept| >= maxPerSecond && now + r.value == kept[0] + Second
    ensures r.Ok? && |kept| >= maxPerSecond ==> now + r.value >= kept[0] + Second
  {
    if |kept| >= maxPerSecond then
      if kept == [] then Err(EmptyWindow)
      else
        var wait := Second - (now - kept[0]);
        Ok(if wait > 0 then wait else 0)
    else Ok(0)
  }

  /**
   * The rate guarantee: if the window at `now` held at most `maxPerSecond`
   * stamps, then after waiting (and any further delay) and recording the
   * request, the window ending at the recorded stamp still holds at most
   * `maxPerSecond`.
   */
  lemma WindowRespected(ts: seq<int>, now: int, delay: nat, maxPerSecond: int)
    requires maxPerSecond >= 1
    requires |Recent(ts, now)| <= maxPerSecond
    ensures WaitFor(Recent(ts, now), now, maxPerSecond).Ok?
    ensures var kept := Recent(ts, now);
            var stamp := now + WaitFor(kept, now, maxPerSecond).value + delay;
            |Recent(kept + [stamp], stamp)| <= maxPerSecond
  {
    var kept := Recent(ts, now);
    var stamp := now + WaitFor(kept, now, maxPerSecond).value + delay;
    RecentSnoc(kept, stamp, stamp);
    RecentLater(kept, now, stamp);
    if |kept| >= maxPerSecond {
      RecentDrops(kept, stamp, 0);
    }
  }

  class RateLimiter {
    const maxPerSecond: int
    /** Per domain, the stamps of the requests recorded for it. */
    var domainTimestamps: map<string, seq<int>>

    constructor (maxPerSecond: int)
      ensures this.maxPerSecond == maxPerSecond
      ensures domainTimestamps == map[]
    {
      this.maxPerSecond := maxPerSecond;
      domainTimestamps := map[];
    }

    /** The list of a domain, empty for one never seen (the `defaultdict`). */
    function Stamps(domain: string): seq<int>
      reads this
    {
      StampsIn(domainTimestamps, domain)
    }

    /** No domain has more than `maxPerSecond` stamps in the window ending at `now`. */
    predicate Respects(now: int)
      reads this
    {
      WithinLimit(domainTimestamps, now, maxPerSecond)
    }

    /**
     * `wait_if_needed` for a URL of `domain` at time `now`.  The request is
     * recorded at the time the clock shows after the sleep, which is
     * `now + wait + delay` for some non-negative scheduling `delay`.
     */
    method WaitIfNeeded(domain: string, now: int, delay: nat) returns (r: Result<int, LimiterFault>)
      modifies this
      ensures r == WaitFor(Recent(old(Stamps(domain)), now), now, maxPerSecond)
      ensures r.Ok? ==>
        domainTimestamps == old(domainTimestamps)[domain := Recent(old(Stamps(domain)), now) + [now + r.value + delay]]
      ensures r.Err? ==> domainTimestamps == old(domainTimestamps)[domain := Recent(old(Stamps(domain)), now)]
      ensures maxPerSecond >= 1 && old(Respects(now)) ==> r.Ok? && Respects(now + r.value + delay)
    {
      ghost var before := domainTimestamps;
      var kept := Recent(Stamps(domain), now);
      domainTimestamps := domainTimestamps[domain := kept];
      var wait := 0;
      if |kept| >= maxPerSecond {
        if kept == [] {
          return Err(EmptyWindow);
        }
        var w := Second - (now - kept[0]);
        if w > 0 {
          wait := w;
        }
      }
      var stamp := now + wait + delay;
      domainTimestamps := domainTimestamps[domain := kept + [stamp]];
      r := Ok(wait);
      assert r == WaitFor(kept, now, maxPerSecond);
      if maxPerSecond >= 1 && WithinLimit(before, now, maxPerSecond) {
        WindowKept(before, domain, now, delay, maxPerSecond);
      }
    }
  }

  function StampsIn(m: map<string, seq<int>>, domain: string): seq<int>
  {
    if domain in m then m[domain] else []
  }

  predicate WithinLimit(m: map<string, seq<int>>, now: int, maxPerSecond: int)
  {
    forall d <- m :: |Recent(m[d], now)| <= maxPerSecond
  }

  /**
   * Recording one request keeps every domain within the limit: the other
   * domains' windows only shrink as time moves on, and this one is bounded
   * by `WindowRespected`.
   */
  lemma WindowKept(before: map<string, seq<int>>, domain: string, now: int, delay: nat, maxPerSecond: int)
    requires maxPerSecond >= 1 && WithinLimit(before, now, maxPerSecond)
    ensures var kept := Recent(StampsIn(before, domain), now);
            var w := WaitFor(kept, now, maxPerSecond);
            w.Ok? && WithinLimit(before[domain := kept + [now + w.value + delay]], now + w.value + delay, maxPerSecond)
  {
    var ts := StampsIn(before, domain);
    var kept := Recent(ts, now);
    assert |kept| <= maxPerSecond by {
      if domain !in before {
        assert ts == [];
      }
    }
    WindowRespected(ts, now, delay, maxPerSecond);
    var stamp := now + WaitFor(kept, now, maxPerSecond).value + delay;
    RecordWithin(before, domain, now, kept + [stamp], stamp, maxPerSecond);
  }

  /** Replacing one domain's stamps by a window within the limit keeps the whole map within it. */
  lemma RecordWithin(before: map<string, seq<int>>, domain: string, now: int, entry: seq<int>, stamp: int, maxPerSecond: int)
    requires WithinLimit(before, now, maxPerSecond) && now <= stamp && |Recent(entry, stamp)| <= maxPerSecond
    ensures WithinLimit(before[domain := entry], stamp, maxPerSecond)
  {
    var after := before[domain := entry];
    forall d <- after
      ensures |Recent(after[d], stamp)| <= maxPerSecond
    {
      if d != domain {
        StaysWithin(before, d, now, stamp, maxPerSecond);
      }
    }
  }

  /** A domain within the limit now is still within it later. */
  lemma StaysWithin(m: map<string, seq<int>>, d: string, now: int, later: int, maxPerSecond: int)
    requires WithinLimit(m, now, maxPerSecond) && d in m && now <= later
    ensures |Recent(m[d], later)| <= maxPerSecond
  {
    RecentLater(m[d], now, later);
  }

  // ------------------------------------------------------------ check_url

  /** What one request gave: a response, a timeout, a client error, or anything else. */
  datatype Probe = Answered(code: int) | TimedOut | ClientFailure(message: string) | Crashed(message: string)

  /**
   * The observable course of `check_url`: the returned status code and error
   * message, how many HEAD requests were sent, whether the GET fallback was
   * sent, and the back-off sleeps in seconds.
   */
  datatype Trace = Trace(code: int, error: Option<string>, heads: nat, usedGet: bool, sleeps: seq<nat>)

  function Pow2(n: nat): (r: nat)
    ensures r >= 1
  {
    if n == 0 then 1 else 2 * Pow2(n - 1)
  }

  /** `[2^0, 2^1, ..., 2^(n-1)]` */
  function Backoffs(n: nat): (r: seq<nat>)
    ensures |r| == n
    ensures forall i :: 0 <= i < n ==> r[i] == Pow2(i)
  {
    if n == 0 then [] else Backoffs(n - 1) + [Pow2(n - 1)]
  }

  /** What a failed final attempt reports for its exception. */
  function FailureMessage(p: Probe): string
  {
    match p
    case TimedOut => "Timeout"
    case ClientFailure(m) => m
    case Crashed(m) => "Unexpected error: " + m
    case Answered(_) => ""
  }

  /** A failed non-final attempt: sleep `2^attempt`, then the remaining attempts. */
  function Retry(attempt: nat, usedGet: bool, rest: Trace): Trace
  {
    Trace(rest.code, rest.error, rest.heads + 1, usedGet || rest.usedGet, [Pow2(attempt)] + rest.sleeps)
  }

  /**
   * The attempts from `attempt` on, when `head(a)` is what the HEAD request
   * of attempt `a` gives and `get` what the GET fallback gives.
   */
  function Attempts(attempt: nat, retries: int, head: nat -> Probe, get: Probe): Trace
    decreases retries - attempt
  {
    if attempt >= retries then Trace(0, Some("Max retries exceeded"), 0, false, [])
    else
      var p := head(attempt);
      var fallback := attempt == 0 && p.ClientFailure?;
      if p.Answered? then Trace(p.code, None, 1, false, [])
      else if fallback && get.Answered? then Trace(get.code, None, 1, true, [])
      else if attempt == retries - 1 then Trace(0, Some(FailureMessage(p)), 1, fallback, [])
      else Retry(attempt, fallback, Attempts(attempt + 1, retries, head, get))
  }

  /** Where the loop stands after `attempt` failed attempts: their effects before the rest. */
  function Resume(attempt: nat, usedGet: bool, rest: Trace): Trace
  {
    Trace(rest.code, rest.error, attempt + rest.heads, usedGet || rest.usedGet, Backoffs(attempt) + rest.sleeps)
  }

  lemma ResumeRetry(attempt: nat, usedGet: bool, fallback: bool, rest: Trace)
    ensures Resume(attempt, usedGet, Retry(attempt, fallback, rest)) == Resume(attempt + 1, usedGet || fallback, rest)
  {
    assert Backoffs(attempt) + ([Pow2(attempt)] + rest.sleeps) == Backoffs(attempt + 1) + rest.sleeps;
  }

  /** An attempt that ends the loop, seen from the start. */
  lemma ResumeStop(attempt: nat, usedGet: bool, code: int, error: Option<string>, fallback: bool)
    ensures Resume(attempt, usedGet, Trace(code, error, 1, fallback, []))
         == Trace(code, error, attempt + 1, usedGet || fallback, Backoffs(attempt))
  {
    assert Backoffs(attempt) + [] == Backoffs(attempt);
  }

  /** The retry loop of `check_url`, after the rate limiter has been consulted. */
  method ProbeUrl(retries: int, head: nat -> Probe, get: Probe) returns (t: Trace)
    ensures t == Attempts(0, retries, head, get)
  {
    var usedGet := false;
    var attempt: nat := 0;
    while attempt < retries
      invariant Attempts(0, retries, head, get) == Resume(attempt, usedGet, Attempts(attempt, retries, head, get))
      invariant usedGet <==> attempt > 0 && head(0).ClientFailure?
    {
      var stop;
      stop, t, usedGet := TryAttempt(attempt, retries, head, get, usedGet);
      if stop {
        return;
      }
      attempt := attempt + 1;
    }
    return Trace(0, Some("Max retries exceeded"), attempt, usedGet, Backoffs(attempt));
  }

  /**
   * One pass of the retry loop's body: either the loop ends with `t`, or a
   * failed attempt was recorded and the loop goes on with `used`.
   */
  method TryAttempt(attempt: nat, retries: int, head: nat -> Probe, get: Probe, usedGet: bool)
    returns (stop: bool, t: Trace, used: bool)
    requires attempt < retries
    requires usedGet <==> attempt > 0 && head(0).ClientFailure?
    ensures stop ==> t == Resume(attempt, usedGet, Attempts(attempt, retries, head, get))
    ensures !stop ==>
      Resume(attempt, usedGet, Attempts(attempt, retries, head, get))
      == Resume(attempt + 1, used, Attempts(attempt + 1, retries, head, get))
    ensures used <==> head(0).ClientFailure?
  {
    var p := head(attempt);
    ghost var fallback := attempt == 0 && p.ClientFailure?;
    ghost var here := Attempts(attempt, retries, head, get);
    used := usedGet;
    stop := true;
    t := Trace(0, None, 0, false, []);
    match p {
      case Answered(code) =>
        assert here == Trace(code, None, 1, false, []);
        ResumeStop(attempt, usedGet, code, None, false);
        return stop, Trace(code, None, attempt + 1, usedGet, Backoffs(attempt)), used;
      case ClientFailure(m) =>
        if attempt == 0 {
          used := true;
          if get.Answered? {
            assert here == Trace(get.code, None, 1, true, []);
            ResumeStop(attempt, usedGet, get.code, None, true);
            return stop, Trace(get.code, None, 1, true, []), used;
          }
        }
        if attempt == retries - 1 {
          assert here == Trace(0, Some(m), 1, fallback, []);
          ResumeStop(attempt, usedGet, 0, Some(m), fallback);
          return stop, Trace(0, Some(m), attempt + 1, used, Backoffs(attempt)), used;
        }
      case TimedOut =>
        if attempt == retries - 1 {
          assert here == Trace(0, Some("Timeout"), 1, false, []);
          ResumeStop(attempt, usedGet, 0, Some("Timeout"), false);
          return stop, Trace(0, Some("Timeout"), attempt + 1, used, Backoffs(attempt)), used;
        }
      case Crashed(m) =>
        if attempt == retries - 1 {
          var message := "Unexpected error: " + m;
          assert here == Trace(0, Some(message), 1, false, []);
          ResumeStop(attempt, usedGet, 0, Some(message), false);
          return stop, Trace(0, Some(message), attempt + 1, used, Backoffs(attempt)), used;
        }
    }
    stop := false;
    assert here == Retry(attempt, fallback, Attempts(attempt + 1, retries, head, get));
    ResumeRetry(attempt, usedGet, fallback, Attempts(attempt + 1, retries, head, get));
  }

  /**
   * `check_url`: one consultation of the rate limiter, then the attempts.
   * None when the limiter fails, which aborts the whole run.
   */
  method CheckUrl(limiter: RateLimiter, domain: string, now: int, delay: nat,
                  retries: int, head: nat -> Probe, get: Probe) returns (t: Option<Trace>)
    modifies limiter
    ensures var w := WaitFor(Recent(old(limiter.Stamps(domain)), now), now, limiter.maxPerSecond);
            t == if w.Err? then None else Some(Attempts(0, retries, head, get))
  {
    var r := limiter.WaitIfNeeded(domain, now, delay);
    if r.Err? {
      return None;
    }
    var trace := ProbeUrl(retries, head, get);
    t := Some(trace);
  }

  /** "Max retries exceeded" comes only from a loop that never ran. */
  lemma {:induction false} NoAttemptsMeansMaxRetries(retries: int, head: nat -> Probe, get: Probe)
    ensures retries <= 0 <==> Attempts(0, retries, head, get).heads == 0
    ensures retries <= 0 ==> Attempts(0, retries, head, get) == Trace(0, Some("Max retries exceeded"), 0, false, [])
  {
    if retries > 0 {
      AttemptsOutcome(0, retries, head, get);
    }
  }

  /**
   * Once the loop runs, the result is the answer of the last request sent or
   * the failure of the final attempt: at most `retries` HEAD requests, one
   * back-off sleep of `2^a` after each failed attempt `a` but the last, and a
   * GET exactly when the first HEAD gave a client error.
   */
  lemma {:induction false} AttemptsOutcome(attempt: nat, retries: int, head: nat -> Probe, get: Probe)
    requires attempt < retries
    ensures var t := Attempts(attempt, retries, head, get);
            && 1 <= t.heads <= retries - attempt
            && t.sleeps == BackoffsFrom(attempt, t.heads - 1)
            && (t.usedGet <==> attempt == 0 && head(0).ClientFailure?)
            && var last := head(attempt + t.heads - 1);
               (if t.usedGet && get.Answered? then t.code == get.code && t.error.None?
                else if last.Answered? then t.code == last.code && t.error.None?
                else t.code == 0 && t.error == Some(FailureMessage(last)) && t.heads == retries - attempt)
    decreases retries - attempt
  {
    var p := head(attempt);
    var fallback := attempt == 0 && p.ClientFailure?;
    if p.Answered? || (fallback && get.Answered?) || attempt == retries - 1 {
    } else {
      AttemptsOutcome(attempt + 1, retries, head, get);
      var rest := Attempts(attempt + 1, retries, head, get);
      assert [Pow2(attempt)] + BackoffsFrom(attempt + 1, rest.heads - 1) == BackoffsFrom(attempt, rest.heads);
    }
  }

  /** `[2^from, ..., 2^(from+n-1)]` */
  function BackoffsFrom(from: nat, n: nat): (r: seq<nat>)
    ensures |r| == n
    ensures forall i :: 0 <= i < n ==> r[i] == Pow2(from + i)
    decreases n
  {
    if n == 0 then [] else [Pow2(from)] + BackoffsFrom(from + 1, n - 1)
  }

  // ---------------------------------------------------------- extraction

  /** A URL found in a file, with the field or context it was found in. */
  datatype Link = Link(url: string, context: string)

  predicate IsWebUrl(u: string) { IsPrefix("http://", u) || IsPrefix("https://", u) }

  /** The URLs of some links, as a set. */
  function UrlSet(links: seq<Link>): set<string> { set l <- links :: l.url }

  /** Inline links `[text](target)`: the web targets, labelled with their text. */
  function InlinePass(matches: seq<(string, string)>): (r: seq<Link>)
    ensures forall l <- r :: IsWebUrl(l.url) && IsPrefix("inline:[", l.context)
    ensures forall m <- matches :: IsWebUrl(m.1) ==> Link(m.1, "inline:[" + m.0 + "]") in r
  {
    if matches == [] then []
    else
      var init, m := matches[..|matches| - 1], matches[|matches| - 1];
      assert matches == init + [m];
      InlinePass(init) + if IsWebUrl(m.1) then [Link(m.1, "inline:[" + m.0 + "]")] else []
  }

  /** Reference definitions `[ref]: target`: the stripped web targets, labelled with their name. */
  function ReferencePass(matches: seq<(string, string)>): (r: seq<Link>)
    ensures forall l <- r :: IsWebUrl(l.url) && IsPrefix("reference:[", l.context)
  {
    if matches == [] then []
    else
      var init, m := matches[..|matches| - 1], matches[|matches| - 1];
      assert matches == init + [m];
      ReferencePass(init) + if IsWebUrl(Strip(m.1)) then [Link(Strip(m.1), "reference:[" + m.0 + "]")] else []
  }

  /** Every reference to a web URL is reported, with its stripped target. */
  lemma {:induction false} ReferencePassKeeps(matches: seq<(string, string)>, i: nat)
    requires i < |matches| && IsWebUrl(Strip(matches[i].1))
    ensures Link(Strip(matches[i].1), "reference:[" + matches[i].0 + "]") in ReferencePass(matches)
  {
    if i < |matches| - 1 {
      ReferencePassKeeps(matches[..|matches| - 1], i);
    }
  }

  /** Bare URLs: each one not captured before, once. */
  function DirectPass(matches: seq<string>, captured: set<string>): (r: seq<Link>)
    ensures forall l <- r :: l.url !in captured && l.context == "direct"
    ensures forall u <- matches :: u in captured || u in UrlSet(r)
  {
    if matches == [] then []
    else
      var init, u := matches[..|matches| - 1], matches[|matches| - 1];
      assert matches == init + [u];
      var d := DirectPass(init, captured);
      d + if u in captured || u in UrlSet(d) then [] else [Link(u, "direct")]
  }

  lemma {:induction false} DirectPassUnique(matches: seq<string>, captured: set<string>)
    ensures NoDuplicates(DirectPass(matches, captured))
    ensures forall i, j :: 0 <= i < j < |DirectPass(matches, captured)| ==>
      DirectPass(matches, captured)[i].url != DirectPass(matches, captured)[j].url
  {
    if matches != [] {
      DirectPassUnique(matches[..|matches| - 1], captured);
    }
  }

  /** The three passes over a markdown file, in order. */
  function MarkdownLinks(inline: seq<(string, string)>, references: seq<(string, string)>, direct: seq<string>)
    : seq<Link>
  {
    var first := InlinePass(inline) + ReferencePass(references);
    first + DirectPass(direct, UrlSet(first))
  }

  lemma InlineConcat(a: seq<(string, string)>, b: seq<(string, string)>)
    ensures InlinePass(a + b) == InlinePass(a) + InlinePass(b)
    decreases |b|
  {
    if b != [] {
      assert (a + b)[..|a + b| - 1] == a + b[..|b| - 1];
      InlineConcat(a, b[..|b| - 1]);
    } else {
      assert a + b == a;
    }
  }

  /**
   * The inline and reference passes keep repeats: a link written twice is
   * reported twice.  Only the direct pass drops URLs seen before.
   */
  lemma MarkdownKeepsRepeats(m: (string, string), references: seq<(string, string)>, direct: seq<string>)
    requires IsWebUrl(m.1)
    ensures var r := MarkdownLinks([m, m], references, direct);
            |r| >= 2 && r[0] == r[1] == Link(m.1, "inline:[" + m.0 + "]")
  {
    var l := Link(m.1, "inline:[" + m.0 + "]");
    InlineConcat([m], [m]);
    assert [m, m] == [m] + [m];
    assert [m][..0] == [];
    assert InlinePass([m]) == [l];
    assert InlinePass([m, m]) == [l, l];
  }

  /** Template literals: every match without a `{{` or `}}`, labelled `literal`. */
  function TemplateLinks(matches: seq<string>): (r: seq<Link>)
    ensures forall l <- r :: !Contains(l.url, "{{") && !Contains(l.url, "}}") && l.context == "literal"
    ensures forall u <- matches :: !Contains(u, "{{") && !Contains(u, "}}") ==> Link(u, "literal") in r
  {
    if matches == [] then []
    else
      var init, u := matches[..|matches| - 1], matches[|matches| - 1];
      assert matches == init + [u];
      TemplateLinks(init) + if !Contains(u, "{{") && !Contains(u, "}}") then [Link(u, "literal")] else []
  }

  /** Static assets: every match, labelled `static`. */
  function StaticLinks(matches: seq<string>): (r: seq<Link>)
    ensures |r| == |matches|
    ensures forall i :: 0 <= i < |r| ==> r[i] == Link(matches[i], "static")
  {
    if matches == [] then [] else StaticLinks(matches[..|matches| - 1]) + [Link(matches[|matches| - 1], "static")]
  }

  method ScanInline(matches: seq<(string, string)>) returns (urls: seq<Link>)
    ensures urls == InlinePass(matches)
  {
    urls := [];
    for i := 0 to |matches|
      invariant urls == InlinePass(matches[..i])
    {
      assert matches[..i + 1][..i] == matches[..i];
      var m := matches[i];
      if IsWebUrl(m.1) {
        urls := urls + [Link(m.1, "inline:[" + m.0 + "]")];
      }
    }
    assert matches[..|matches|] == matches;
  }

  lemma ReferencePassSnoc(matches: seq<(string, string)>, m: (string, string))
    ensures ReferencePass(matches + [m])
         == ReferencePass(matches) + if IsWebUrl(Strip(m.1)) then [Link(Strip(m.1), "reference:[" + m.0 + "]")] else []
  {
    assert (matches + [m])[..|matches|] == matches;
  }

  method ScanReferences(matches: seq<(string, string)>) returns (urls: seq<Link>)
    ensures urls == ReferencePass(matches)
  {
    urls := [];
    for i := 0 to |matches|
      invariant urls == ReferencePass(matches[..i])
    {
      var m := matches[i];
      assert matches[..i + 1] == matches[..i] + [m];
      ReferencePassSnoc(matches[..i], m);
      var u := Strip(m.1);
      if IsWebUrl(u) {
        urls := urls + [Link(u, "reference:[" + m.0 + "]")];
      }
    }
    assert matches[..|matches|] == matches;
  }

  lemma DirectPassSnoc(matches: seq<string>, u: string, captured: set<string>)
    ensures var d := DirectPass(matches, captured);
            DirectPass(matches + [u], captured)
            == if u in captured || u in UrlSet(d) then d else d + [Link(u, "direct")]
  {
    assert (matches + [u])[..|matches|] == matches;
    assert DirectPass(matches, captured) + [] == DirectPass(matches, captured);
  }

  lemma DirectPassStep(matches: seq<string>, i: nat, captured: set<string>)
    requires i < |matches|
    ensures var d := DirectPass(matches[..i], captured);
            DirectPass(matches[..i + 1], captured)
            == if matches[i] in captured || matches[i] in UrlSet(d) then d else d + [Link(matches[i], "direct")]
  {
    assert matches[..i + 1] == matches[..i] + [matches[i]];
    DirectPassSnoc(matches[..i], matches[i], captured);
  }

  lemma UrlSetSnoc(links: seq<Link>, l: Link)
    ensures UrlSet(links + [l]) == UrlSet(links) + {l.url}
  {
    assert forall x <- links + [l] :: x in links || x == l;
  }

  /** The direct pass, with `captured` growing as URLs are reported. */
  method ScanDirect(matches: seq<string>, before: set<string>) returns (urls: seq<Link>)
    ensures urls == DirectPass(matches, before)
  {
    urls := [];
    var captured := before;
    for i := 0 to |matches|
      invariant urls == DirectPass(matches[..i], before)
      invariant captured == before + UrlSet(urls)
    {
      var u := matches[i];
      DirectPassStep(matches, i, before);
      if u !in captured {
        UrlSetSnoc(urls, Link(u, "direct"));
        urls := urls + [Link(u, "direct")];
        captured := captured + {u};
      }
    }
    assert matches[..|matches|] == matches;
  }

  /** `extract_urls_from_markdown` over the matches of its three patterns. */
  method ExtractFromMarkdown(inline: seq<(string, string)>, references: seq<(string, string)>, direct: seq<string>)
    returns (urls: seq<Link>)
    ensures urls == MarkdownLinks(inline, references, direct)
  {
    var first := ScanInline(inline);
    var second := ScanReferences(references);
    urls := first + second;
    var rest := ScanDirect(direct, UrlSet(urls));
    urls := urls + rest;
  }

  method ExtractFromTemplate(matches: seq<string>) returns (urls: seq<Link>)
    ensures urls == TemplateLinks(matches)
  {
    urls := [];
    for i := 0 to |matches|
      invariant urls == TemplateLinks(matches[..i])
    {
      assert matches[..i + 1][..i] == matches[..i];
      var u := matches[i];
      if !Contains(u, "{{") && !Contains(u, "}}") {
        urls := urls + [Link(u, "literal")];
      }
    }
    assert matches[..|matches|] == matches;
  }

  method ExtractFromStatic(matches: seq<string>) returns (urls: seq<Link>)
    ensures urls == StaticLinks(matches)
  {
    urls := [];
    for i := 0 to |matches|
      invariant urls == StaticLinks(matches[..i])
    {
      assert matches[..i + 1][..i] == matches[..i];
      urls := urls + [Link(matches[i], "static")];
    }
    assert matches[..|matches|] == matches;
  }

  /** `f"https://github.com/{repo}"` */
  function GithubUrl(repo: string): string { "https://github.com/" + repo }

  /** The record's value of a field as text: `str(...)` of whatever is there. */
  function FieldText(data: Schema.Record, field: string): Option<string>
  {
    PyStr(Get(data, field))
  }

  /**
   * The links of a record with a `url` field.  When the record is a valid
   * agent entry, the validated entry's URL, its truthy documentation and demo
   * URLs and its truthy repository; otherwise whatever of the four fields is
   * present, read as it is.
   */
  function EntryLinks(data: Schema.Record, entry: Result<Schema.Record, Schema.SchemaError>): (r: seq<Link>)
    ensures |r| <= 4
    // the contexts are drawn from the four link fields, in their order
    ensures forall i :: 0 <= i < |r| ==> r[i].context in LinkFields
    ensures InFieldOrder(r)
    // every link carries its field's text, the repository one as a GitHub URL
    ensures forall i :: 0 <= i < |r| ==> Carries(LinkSource(data, entry), r[i])
    // the record's own URL comes first whenever it has one
    ensures var src := LinkSource(data, entry);
            (entry.Ok? || "url" in data) && FieldText(src, "url").Some? ==>
              r != [] && r[0] == Link(FieldText(src, "url").value, "url")
  {
    var src := LinkSource(data, entry);
    var r := LinksFrom(LinkTexts(src), LinkSwitches(data, entry), 0);
    LinksCarry(src, r);
    r
  }

  /** The record the links are read from: the validated entry, or the raw one. */
  function LinkSource(data: Schema.Record, entry: Result<Schema.Record, Schema.SchemaError>): Schema.Record
  {
    if entry.Ok? then entry.value else data
  }

  /**
   * Which of the four fields are read: on the validated entry the URL always
   * and the others when truthy; on the raw record those present.
   */
  function LinkSwitches(data: Schema.Record, entry: Result<Schema.Record, Schema.SchemaError>): (on: seq<bool>)
    ensures |on| == 4
  {
    match entry
    case Ok(e) =>
      [true, Truthy(Get(e, "documentation_url")), Truthy(Get(e, "demo_url")), Truthy(Get(e, "github_repo"))]
    case Err(_) =>
      ["url" in data, "documentation_url" in data, "demo_url" in data, "github_repo" in data]
  }

  /** The record fields a link can come from, in the order they are read. */
  const LinkFields: seq<string> := ["url", "documentation_url", "demo_url", "github_repo"]

  /** The position of a field in `LinkFields`; 4 for any other text. */
  function LinkFieldRank(field: string): (k: nat)
    ensures k < 4 <==> field in LinkFields
    ensures k < 4 ==> LinkFields[k] == field
  {
    if field == "url" then 0
    else if field == "documentation_url" then 1
    else if field == "demo_url" then 2
    else if field == "github_repo" then 3
    else 4
  }

  /** The text of each of the four link fields, in `LinkFields` order. */
  function LinkTexts(src: Schema.Record): (texts: seq<Option<string>>)
    ensures |texts| == 4 && forall m :: 0 <= m < 4 ==> texts[m] == FieldText(src, LinkFields[m])
  {
    [FieldText(src, "url"), FieldText(src, "documentation_url"), FieldText(src, "demo_url"), FieldText(src, "github_repo")]
  }

  /** The URL a text of field `m` stands for: a repository `owner/name` becomes its GitHub page. */
  function TextUrl(m: nat, text: string): string
  {
    if m == 3 then GithubUrl(text) else text
  }

  /** The URL a field's text stands for. */
  function LinkUrl(src: Schema.Record, field: string): string
    requires FieldText(src, field).Some?
  {
    TextUrl(LinkFieldRank(field), FieldText(src, field).value)
  }

  /** A link carries its field's text, the repository one as its GitHub URL. */
  predicate Carries(src: Schema.Record, l: Link)
  {
    FieldText(src, l.context).Some? && l.url == LinkUrl(src, l.context)
  }

  /** A link made from field `m`'s text. */
  predicate FromText(texts: seq<Option<string>>, l: Link)
  {
    var m := LinkFieldRank(l.context);
    m < |texts| && texts[m].Some? && l.url == TextUrl(m, texts[m].value)
  }

  /** Links whose fields come strictly later in `LinkFields`, one after another. */
  predicate InFieldOrder(r: seq<Link>)
  {
    forall i, j :: 0 <= i < j < |r| ==> LinkFieldRank(r[i].context) < LinkFieldRank(r[j].context)
  }

  /**
   * The links of fields `LinkFields[k..]`, field `m` contributing one link
   * when `on[m]` holds and it has a text.
   */
  function LinksFrom(texts: seq<Option<string>>, on: seq<bool>, k: nat): (r: seq<Link>)
    requires |texts| == 4 && |on| == 4 && k <= 4
    ensures |r| <= 4 - k
    ensures forall i :: 0 <= i < |r| ==> k <= LinkFieldRank(r[i].context) < 4 && FromText(texts, r[i])
    ensures InFieldOrder(r)
    ensures k < 4 && on[k] && texts[k].Some? ==> r != [] && r[0] == Link(TextUrl(k, texts[k].value), LinkFields[k])
    decreases 4 - k
  {
    if k == 4 then []
    else
      var rest := LinksFrom(texts, on, k + 1);
      if on[k] && texts[k].Some? then
        var x := Link(TextUrl(k, texts[k].value), LinkFields[k]);
        ConsInFieldOrder(texts, x, rest, k);
        [x] + rest
      else rest
  }

  /** A link of field `k` in front of links of later fields keeps them made from their texts and in order. */
  lemma ConsInFieldOrder(texts: seq<Option<string>>, x: Link, rest: seq<Link>, k: nat)
    requires k < 4 && x.context == LinkFields[k] && FromText(texts, x)
    requires forall i :: 0 <= i < |rest| ==> k + 1 <= LinkFieldRank(rest[i].context) < 4 && FromText(texts, rest[i])
    requires InFieldOrder(rest)
    ensures forall i :: 0 <= i < |[x] + rest| ==>
              k <= LinkFieldRank(([x] + rest)[i].context) < 4 && FromText(texts, ([x] + rest)[i])
    ensures InFieldOrder([x] + rest)
  {
    var r := [x] + rest;
    assert LinkFieldRank(x.context) == k;
    assert forall i :: 0 < i < |r| ==> r[i] == rest[i - 1];
  }

  /** Links made from a record's field texts carry those fields' texts. */
  lemma LinksCarry(src: Schema.Record, r: seq<Link>)
    requires forall i :: 0 <= i < |r| ==> LinkFieldRank(r[i].context) < 4 && FromText(LinkTexts(src), r[i])
    ensures forall i :: 0 <= i < |r| ==> Carries(src, r[i])
  {
    forall i | 0 <= i < |r| ensures Carries(src, r[i]) {
      var m := LinkFieldRank(r[i].context);
      assert LinkTexts(src)[m] == FieldText(src, r[i].context);
    }
  }

  /**
   * `extract_urls_from_yaml`: nothing for an unreadable, empty or non-record
   * file or a record without `url`; otherwise `EntryLinks`.
   */
  function YamlLinks(outcome: LoadOutcome, isUrl: string -> bool): seq<Link>
  {
    match outcome
    case Parsed(Mapping(m)) =>
      if "url" in m then EntryLinks(m, Schema.ValidateRecord(Schema.AgentFields, m, isUrl)) else []
    case _ => []
  }


  /** Some link of `r` comes from field `LinkFields[m]`. */
  predicate HasRank(r: seq<Link>, m: nat)
  {
    exists i :: 0 <= i < |r| && LinkFieldRank(r[i].context) == m
  }

  lemma RankOfField(k: nat)
    requires k < 4
    ensures LinkFieldRank(LinkFields[k]) == k
  {
  }

  /** Field `LinkFields[m]` yields a link exactly when it is read and has a text. */
  lemma {:induction false} LinksFromHas(texts: seq<Option<string>>, on: seq<bool>, k: nat, m: nat)
    requires |texts| == 4 && |on| == 4 && k <= m < 4
    ensures HasRank(LinksFrom(texts, on, k), m) <==> on[m] && texts[m].Some?
    decreases 4 - k
  {
    var r := LinksFrom(texts, on, k);
    var rest := LinksFrom(texts, on, k + 1);
    if on[k] && texts[k].Some? {
      var x := Link(TextUrl(k, texts[k].value), LinkFields[k]);
      assert r == [x] + rest;
      RankOfField(k);
      if k == m {
        assert LinkFieldRank(r[0].context) == m;
      } else {
        LinksFromHas(texts, on, k + 1, m);
        ConsHasRank(x, rest, m);
      }
    } else {
      assert r == rest;
      if k < m {
        LinksFromHas(texts, on, k + 1, m);
      }
    }
  }

  /** A link in front from another field does not change which fields occur. */
  lemma ConsHasRank(x: Link, rest: seq<Link>, m: nat)
    requires LinkFieldRank(x.context) != m
    ensures HasRank([x] + rest, m) <==> HasRank(rest, m)
  {
    var r := [x] + rest;
    if HasRank(rest, m) {
      var i :| 0 <= i < |rest| && LinkFieldRank(rest[i].context) == m;
      assert r[i + 1] == rest[i];
    }
    if HasRank(r, m) {
      var i :| 0 <= i < |r| && LinkFieldRank(r[i].context) == m;
      assert rest[i - 1] == r[i];
    }
  }

  /** Some link of `r` was found in field or context `field`. */
  predicate HasContext(r: seq<Link>, field: string)
  {
    exists i :: 0 <= i < |r| && r[i].context == field
  }

  /** A link from field `LinkFields[m]` is one whose context is that field. */
  lemma HasRankContext(r: seq<Link>, m: nat)
    requires m < 4
    ensures HasRank(r, m) <==> HasContext(r, LinkFields[m])
  {
    RankOfField(m);
    if HasContext(r, LinkFields[m]) {
      var i :| 0 <= i < |r| && r[i].context == LinkFields[m];
      assert LinkFieldRank(r[i].context) == m;
    }
  }

  /** Field `m` of a record yields a link exactly when it is read and has a text. */
  lemma EntryLinksHas(data: Schema.Record, entry: Result<Schema.Record, Schema.SchemaError>, m: nat)
    requires m < 4
    ensures HasContext(EntryLinks(data, entry), LinkFields[m]) <==>
            LinkSwitches(data, entry)[m] && FieldText(LinkSource(data, entry), LinkFields[m]).Some?
  {
    var src := LinkSource(data, entry);
    LinksFromHas(LinkTexts(src), LinkSwitches(data, entry), 0, m);
    HasRankContext(EntryLinks(data, entry), m);
  }

  /**
   * The repository rule: a repository `owner/name` on a record becomes the
   * last link, `https://github.com/owner/name`, on both the validated and
   * the fallback path.
   */
  lemma RepoBecomesLink(data: Schema.Record, entry: Result<Schema.Record, Schema.SchemaError>, repo: string)
    requires entry.Ok? ==> Get(entry.value, "github_repo") == Str(repo) && repo != ""
    requires entry.Err? ==> Get(data, "github_repo") == Str(repo) && "github_repo" in data
    ensures var r := EntryLinks(data, entry);
            r != [] && r[|r| - 1] == Link("https://github.com/" + repo, "github_repo")
  {
    var r := EntryLinks(data, entry);
    var src := LinkSource(data, entry);
    assert LinkSwitches(data, entry)[3] && FieldText(src, LinkFields[3]) == Some(repo);
    EntryLinksHas(data, entry, 3);
    var i :| 0 <= i < |r| && r[i].context == "github_repo";
    if i < |r| - 1 {
      assert false;
    }
    assert Carries(src, r[i]);
  }

  /** Without a repository field, no `github_repo` link is made. */
  lemma NoRepoNoLink(data: Schema.Record, entry: Result<Schema.Record, Schema.SchemaError>)
    requires entry.Ok? ==> !Truthy(Get(entry.value, "github_repo"))
    requires entry.Err? ==> "github_repo" !in data
    ensures !HasContext(EntryLinks(data, entry), "github_repo")
  {
    EntryLinksHas(data, entry, 3);
  }

  /**
   * The documentation and demo rule: on the validated entry such a link is
   * made exactly when the field is truthy, on the raw record exactly when
   * the field is present with a text.
   */
  lemma OptionalLinkIff(data: Schema.Record, entry: Result<Schema.Record, Schema.SchemaError>, field: string)
    requires field in {"documentation_url", "demo_url"}
    ensures HasContext(EntryLinks(data, entry), field) <==>
            if entry.Ok? then Truthy(Get(entry.value, field)) && FieldText(entry.value, field).Some?
            else field in data && FieldText(data, field).Some?
  {
    var m := if field == "documentation_url" then 1 else 2;
    assert LinkFields[m] == field;
    EntryLinksHas(data, entry, m);
  }

  // ------------------------------------------------------------ fan-out

  /** One place a URL was found: the URL, the file and the field or context. */
  datatype Occurrence = Occurrence(url: string, file: string, field: string)

  /** A file of the URL map with the links found in it. */
  datatype FileLinks = FileLinks(file: string, links: seq<Link>)

  function Tag(file: string, links: seq<Link>): (r: seq<Occurrence>)
    ensures |r| == |links|
  {
    if links == [] then []
    else Tag(file, links[..|links| - 1]) + [Occurrence(links[|links| - 1].url, file, links[|links| - 1].context)]
  }

  /** Every occurrence in the URL map, file by file. */
  function Flatten(urlMap: seq<FileLinks>): seq<Occurrence>
  {
    if urlMap == [] then []
    else Flatten(urlMap[..|urlMap| - 1]) + Tag(urlMap[|urlMap| - 1].file, urlMap[|urlMap| - 1].links)
  }

  function UrlOf(o: Occurrence): string { o.url }

  /** The result line of one occurrence of a URL whose check gave `outcome`. */
  function Report(o: Occurrence, outcome: (int, Option<string>)): UrlCheck
  {
    UrlCheck(o.url, Classify(outcome.0), outcome.0, outcome.1, o.file, SourceTypeOf(o.file), o.field)
  }

  function Fan(sources: seq<Occurrence>, outcome: (int, Option<string>)): (r: seq<UrlCheck>)
    ensures |r| == |sources|
  {
    if sources == [] then [] else Fan(sources[..|sources| - 1], outcome) + [Report(sources[|sources| - 1], outcome)]
  }

  /** For each URL in `urls`, one result per occurrence, using that URL's check outcome. */
  function FanOut(urls: seq<string>, occ: seq<Occurrence>, outcomeOf: string -> (int, Option<string>)): seq<UrlCheck>
  {
    if urls == [] then []
    else
      var u := urls[|urls| - 1];
      FanOut(urls[..|urls| - 1], occ, outcomeOf) + Fan(Members(occ, UrlOf, u), outcomeOf(u))
  }

  /** What `check_all_urls` returns when the check of URL `u` gives `outcomeOf(u)`. */
  function CheckAll(urlMap: seq<FileLinks>, outcomeOf: string -> (int, Option<string>)): seq<UrlCheck>
  {
    var occ := Flatten(urlMap);
    FanOut(Order(occ, UrlOf), occ, outcomeOf)
  }

  const BatchSize: nat := 50

  method FanSources(sources: seq<Occurrence>, outcome: (int, Option<string>)) returns (r: seq<UrlCheck>)
    ensures r == Fan(sources, outcome)
  {
    r := [];
    for i := 0 to |sources|
      invariant r == Fan(sources[..i], outcome)
    {
      assert sources[..i + 1][..i] == sources[..i];
      r := r + [Report(sources[i], outcome)];
    }
    assert sources[..|sources|] == sources;
  }

  method FlattenMap(urlMap: seq<FileLinks>) returns (occ: seq<Occurrence>)
    ensures occ == Flatten(urlMap)
  {
    occ := [];
    for i := 0 to |urlMap|
      invariant occ == Flatten(urlMap[..i])
    {
      assert urlMap[..i + 1][..i] == urlMap[..i];
      var f := urlMap[i];
      var before := occ;
      for j := 0 to |f.links|
        invariant occ == before + Tag(f.file, f.links[..j])
      {
        assert f.links[..j + 1][..j] == f.links[..j];
        occ := occ + [Occurrence(f.links[j].url, f.file, f.links[j].context)];
      }
      assert f.links[..|f.links|] == f.links;
    }
    assert urlMap[..|urlMap|] == urlMap;
  }

  /**
   * `check_all_urls`: flatten, group the occurrences by URL, check each
   * distinct URL once (batch by batch) and report it once per occurrence.
   * `checked` lists the URLs in the order they were checked.
   */
  method CheckAllUrls(urlMap: seq<FileLinks>, outcomeOf: string -> (int, Option<string>))
    returns (results: seq<UrlCheck>, checked: seq<string>)
    ensures results == CheckAll(urlMap, outcomeOf)
    ensures checked == Order(Flatten(urlMap), UrlOf)
  {
    var occ := FlattenMap(urlMap);
    var unique, sources := GroupBy(occ, UrlOf);
    OrderSources(occ);
    results, checked := CheckInBatches(unique, sources, occ, outcomeOf);
  }

  /** The batch loop: `BatchSize` distinct URLs at a time, results kept in URL order. */
  method CheckInBatches(unique: seq<string>, sources: map<string, seq<Occurrence>>, occ: seq<Occurrence>,
                        outcomeOf: string -> (int, Option<string>))
    returns (results: seq<UrlCheck>, checked: seq<string>)
    requires SourcesFor(unique, sources, occ)
    ensures results == FanOut(unique, occ, outcomeOf)
    ensures checked == unique
  {
    results := [];
    checked := [];
    var i := 0;
    while i < |unique|
      invariant 0 <= i <= |unique|
      invariant checked == unique[..i]
      invariant results == FanOut(unique[..i], occ, outcomeOf)
    {
      var end := if i + BatchSize <= |unique| then i + BatchSize else |unique|;
      var batch := unique[i..end];
      SourcesForSlice(unique, i, end, sources, occ);
      var fanned := CheckBatch(batch, sources, occ, outcomeOf);
      BatchDone(unique, i, end, occ, outcomeOf);
      results := results + fanned;
      checked := checked + batch;
      i := end;
    }
    assert unique[..|unique|] == unique;
  }

  /** The URLs up to the end of a batch are those before it and the batch itself. */
  lemma BatchDone(urls: seq<string>, i: int, j: int, occ: seq<Occurrence>, outcomeOf: string -> (int, Option<string>))
    requires 0 <= i <= j <= |urls|
    ensures urls[..j] == urls[..i] + urls[i..j]
    ensures FanOut(urls[..j], occ, outcomeOf) == FanOut(urls[..i], occ, outcomeOf) + FanOut(urls[i..j], occ, outcomeOf)
  {
    assert urls[..j] == urls[..i] + urls[i..j];
    FanOutConcat(urls[..i], urls[i..j], occ, outcomeOf);
  }

  /** Every URL of `urls` is grouped under its own occurrences. */
  predicate SourcesFor(urls: seq<string>, sources: map<string, seq<Occurrence>>, occ: seq<Occurrence>)
  {
    forall u <- urls :: u in sources && sources[u] == Members(occ, UrlOf, u)
  }

  lemma OrderSources(occ: seq<Occurrence>)
    ensures SourcesFor(Order(occ, UrlOf), GroupsOf(occ, UrlOf), occ)
  {
    forall u <- Order(occ, UrlOf) ensures u in GroupsOf(occ, UrlOf) && GroupsOf(occ, UrlOf)[u] == Members(occ, UrlOf, u) {
      assert u in Elems(Order(occ, UrlOf));
      GroupsOfExact(occ, UrlOf, u);
    }
  }

  lemma SourcesForSlice(urls: seq<string>, i: int, j: int, sources: map<string, seq<Occurrence>>, occ: seq<Occurrence>)
    requires 0 <= i <= j <= |urls| && SourcesFor(urls, sources, occ)
    ensures SourcesFor(urls[i..j], sources, occ)
  {
    forall u <- urls[i..j] ensures u in urls {
    }
  }

  /** One batch: every URL of it checked, then reported once per source. */
  method CheckBatch(batch: seq<string>, sources: map<string, seq<Occurrence>>, occ: seq<Occurrence>,
                    outcomeOf: string -> (int, Option<string>)) returns (results: seq<UrlCheck>)
    requires SourcesFor(batch, sources, occ)
    ensures results == FanOut(batch, occ, outcomeOf)
  {
    var outcomes := seq(|batch|, j requires 0 <= j < |batch| => outcomeOf(batch[j]));
    results := [];
    for j := 0 to |batch|
      invariant results == FanOut(batch[..j], occ, outcomeOf)
    {
      var u := batch[j];
      assert batch[..j + 1][..j] == batch[..j];
      var fanned := FanSources(sources[u], outcomes[j]);
      results := results + fanned;
    }
    assert batch[..|batch|] == batch;
  }

  lemma {:induction false} FanOutConcat(a: seq<string>, b: seq<string>, occ: seq<Occurrence>,
                                        outcomeOf: string -> (int, Option<string>))
    ensures FanOut(a + b, occ, outcomeOf) == FanOut(a, occ, outcomeOf) + FanOut(b, occ, outcomeOf)
    decreases |b|
  {
    if b == [] {
      assert a + b == a;
    } else {
      var init, u := b[..|b| - 1], b[|b| - 1];
      assert a + b == (a + init) + [u] && b == init + [u];
      FanOutConcat(a, init, occ, outcomeOf);
      FanOutSnoc(a + init, u, occ, outcomeOf);
      FanOutSnoc(init, u, occ, outcomeOf);
      AppendAssoc(FanOut(a, occ, outcomeOf), FanOut(init, occ, outcomeOf), Fan(Members(occ, UrlOf, u), outcomeOf(u)));
    }
  }

  lemma FanOutSnoc(urls: seq<string>, u: string, occ: seq<Occurrence>, outcomeOf: string -> (int, Option<string>))
    ensures FanOut(urls + [u], occ, outcomeOf) == FanOut(urls, occ, outcomeOf) + Fan(Members(occ, UrlOf, u), outcomeOf(u))
  {
    assert (urls + [u])[..|urls|] == urls;
  }

  lemma AppendAssoc<T>(x: seq<T>, y: seq<T>, z: seq<T>)
    ensures x + (y + z) == x + y + z
  {
  }

  // ------------------------------------------------------- fan-out facts

  /** The (url, file, field) of a result line. */
  function Origin(c: UrlCheck): Occurrence { Occurrence(c.url, c.sourceFile, c.fieldName) }

  function Origins(rs: seq<UrlCheck>): (r: seq<Occurrence>)
    ensures |r| == |rs|
  {
    if rs == [] then [] else Origins(rs[..|rs| - 1]) + [Origin(rs[|rs| - 1])]
  }

  lemma OriginsConcat(a: seq<UrlCheck>, b: seq<UrlCheck>)
    ensures Origins(a + b) == Origins(a) + Origins(b)
    decreases |b|
  {
    if b == [] {
      assert a + b == a;
    } else {
      assert (a + b)[..|a + b| - 1] == a + b[..|b| - 1];
      OriginsConcat(a, b[..|b| - 1]);
    }
  }

  lemma {:induction false} FanOrigins(sources: seq<Occurrence>, outcome: (int, Option<string>))
    ensures Origins(Fan(sources, outcome)) == sources
  {
    if sources != [] {
      FanOrigins(sources[..|sources| - 1], outcome);
      OriginsConcat(Fan(sources[..|sources| - 1], outcome), [Report(sources[|sources| - 1], outcome)]);
    }
  }

  lemma {:induction false} FanOutOrigins(urls: seq<string>, occ: seq<Occurrence>, outcomeOf: string -> (int, Option<string>))
    ensures Origins(FanOut(urls, occ, outcomeOf)) == Gather(urls, occ, UrlOf)
  {
    if urls != [] {
      var u := urls[|urls| - 1];
      FanOutOrigins(urls[..|urls| - 1], occ, outcomeOf);
      FanOrigins(Members(occ, UrlOf, u), outcomeOf(u));
      OriginsConcat(FanOut(urls[..|urls| - 1], occ, outcomeOf), Fan(Members(occ, UrlOf, u), outcomeOf(u)));
    }
  }

  /**
   * One result per occurrence: the (url, file, field) of the results are a
   * rearrangement of the occurrences in the URL map, so there are exactly as
   * many results as occurrences.
   */
  lemma OnePerOccurrence(urlMap: seq<FileLinks>, outcomeOf: string -> (int, Option<string>))
    ensures multiset(Origins(CheckAll(urlMap, outcomeOf))) == multiset(Flatten(urlMap))
    ensures |CheckAll(urlMap, outcomeOf)| == |Flatten(urlMap)|
  {
    var occ := Flatten(urlMap);
    FanOutOrigins(Order(occ, UrlOf), occ, outcomeOf);
    GroupsPartition(occ, UrlOf);
    assert |multiset(Origins(CheckAll(urlMap, outcomeOf)))| == |multiset(occ)|;
  }

  lemma {:induction false} FanReports(sources: seq<Occurrence>, u: string, outcome: (int, Option<string>))
    requires forall o <- sources :: o.url == u
    ensures forall c <- Fan(sources, outcome) ::
      c.url == u && c.statusCode == outcome.0 && c.errorMessage == outcome.1
      && c.status == Classify(outcome.0) && c.sourceType == SourceTypeOf(c.sourceFile)
  {
    if sources != [] {
      FanReports(sources[..|sources| - 1], u, outcome);
    }
  }

  lemma {:induction false} FanOutReports(urls: seq<string>, occ: seq<Occurrence>, outcomeOf: string -> (int, Option<string>))
    ensures forall c <- FanOut(urls, occ, outcomeOf) ::
      c.statusCode == outcomeOf(c.url).0 && c.errorMessage == outcomeOf(c.url).1
      && c.status == Classify(c.statusCode) && c.sourceType == SourceTypeOf(c.sourceFile)
  {
    if urls != [] {
      var u := urls[|urls| - 1];
      FanOutReports(urls[..|urls| - 1], occ, outcomeOf);
      MembersExact(occ, UrlOf, u);
      FanReports(Members(occ, UrlOf, u), u, outcomeOf(u));
    }
  }

  /** Every result of a URL carries that URL's one outcome: same status, code and message. */
  lemma SameUrlSameOutcome(urlMap: seq<FileLinks>, outcomeOf: string -> (int, Option<string>), a: UrlCheck, b: UrlCheck)
    requires a in CheckAll(urlMap, outcomeOf) && b in CheckAll(urlMap, outcomeOf)
    requires a.url == b.url
    ensures a.status == b.status && a.statusCode == b.statusCode && a.errorMessage == b.errorMessage
  {
    var occ := Flatten(urlMap);
    FanOutReports(Order(occ, UrlOf), occ, outcomeOf);
  }
}
