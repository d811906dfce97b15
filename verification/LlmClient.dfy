/** The LLM client: routing by data classification, bounded retry with exponential backoff, and the
    usage log. What a provider does on each attempt is chosen by an adversary. */
module LlmClient {
  import opened Options
  import Vectors

  datatype Classification = Public | Internal | Confidential | Restricted

  datatype Provider = Local | Anthropic | OpenAi | OpenRouter

  datatype Usage = Usage(input: nat, output: nat)

  /** A schema turns a reply into a parsed value or rejects it, and may reject the local defaults. */
  datatype Schema = Schema(parse: string -> Option<string>, localDefaults: Option<string>)

  datatype Request = Request(structured: bool, schema: Option<Schema>)

  /** One provider call: it raises (or its reply cannot be read), or it replies. */
  datatype Attempt = Raises | Reply(text: string, usage: Usage)

  datatype Result =
    | Response(provider: Provider, text: string, parsed: Option<string>, usage: Usage)
    | NoRoute
    | LocalSchemaError
    | NoKey
    | Exhausted

  datatype Config = Config(table: map<Classification, Provider>, keys: set<Provider>,
                           maxRetries: int, baseDelay: real)

  const DEFAULT_ROUTING := map[
    Restricted := Local, Confidential := Anthropic, Internal := Anthropic, Public := OpenRouter]

  /** An empty table is replaced by the default one. */
  function Routing(cfg: Config): map<Classification, Provider> {
    if cfg.table == map[] then DEFAULT_ROUTING else cfg.table
  }

  function Available(cfg: Config): set<Provider> {
    {Local} + cfg.keys
  }

  // ---------- backoff ----------

  function Pow2(k: nat): (p: int)
    ensures p >= 1
  {
    if k == 0 then 1 else 2 * Pow2(k - 1)
  }

  function MaxAttempts(cfg: Config): nat {
    if cfg.maxRetries > 0 then cfg.maxRetries else 0
  }

  function BackoffDelays(cfg: Config): (d: seq<real>)
    ensures |d| == MaxAttempts(cfg)
    ensures forall k :: 0 <= k < |d| ==> d[k] == cfg.baseDelay * Pow2(k) as real
  {
    seq(MaxAttempts(cfg), k requires k >= 0 => cfg.baseDelay * Pow2(k) as real)
  }

  /** The time slept over the first k delays, in closed form. */
  function SleptAfter(cfg: Config, k: nat): real {
    cfg.baseDelay * (Pow2(k) - 1) as real
  }

  lemma SleptStep(cfg: Config, k: nat)
    ensures SleptAfter(cfg, k + 1) == SleptAfter(cfg, k) + cfg.baseDelay * Pow2(k) as real
  {
    Distribute(cfg.baseDelay, (Pow2(k) - 1) as real, Pow2(k) as real);
  }

  lemma Distribute(b: real, x: real, y: real)
    ensures b * (x + y) == b * x + b * y
  {
  }

  // ---------- attempts ----------

  /** The parsed value of a reply; unstructured requests do not parse. */
  function Parsed(req: Request, text: string): Option<Option<string>> {
    if req.structured && req.schema.Some? then
      var p := req.schema.value.parse(text);
      if p.Some? then Some(p) else None
    else Some(None)
  }

  predicate Good(req: Request, a: Attempt) {
    a.Reply? && Parsed(req, a.text).Some?
  }

  /** Attempt k is the first good one. */
  predicate FirstGood(req: Request, outcomes: nat -> Attempt, k: nat) {
    Good(req, outcomes(k)) && forall l :: 0 <= l < k ==> !Good(req, outcomes(l))
  }

  predicate NoneGood(req: Request, outcomes: nat -> Attempt, n: nat) {
    forall l :: 0 <= l < n ==> !Good(req, outcomes(l))
  }

  function ResponseOf(req: Request, provider: Provider, a: Attempt): Result
    requires Good(req, a)
  {
    Response(provider, a.text, Parsed(req, a.text).value, a.usage)
  }

  /** Everything one call does: its result, the provider calls it makes and the time it sleeps. */
  datatype Effect = Effect(result: Result, dispatched: seq<Provider>, slept: real)

  /** Where a call goes, before any attempt. */
  datatype Route = ToLocal | ToProvider(provider: Provider) | Nowhere(result: Result)

  function RouteOf(cfg: Config, c: Classification): Route {
    if c !in Routing(cfg) then Nowhere(NoRoute)
    else if c == Restricted || Routing(cfg)[c] == Local then ToLocal
    else if Routing(cfg)[c] !in Available(cfg) then Nowhere(NoKey)
    else ToProvider(Routing(cfg)[c])
  }

  /** The usage a call adds to the log: that of its external response, if it got one. */
  function Logged(result: Result): seq<Usage> {
    if result.Response? && result.provider != Local then [result.usage] else []
  }

  function LocalResult(req: Request): Result {
    if req.schema.None? || !req.structured then Response(Local, "", None, Usage(0, 0))
    else if req.schema.value.localDefaults.None? then LocalSchemaError
    else Response(Local, req.schema.value.localDefaults.value, req.schema.value.localDefaults, Usage(0, 0))
  }

  function Repeat(p: Provider, n: nat): (s: seq<Provider>)
    ensures |s| == n && forall k :: 0 <= k < n ==> s[k] == p
  {
    seq(n, k => p)
  }

  /** What the retry loop does against a given sequence of outcomes. */
  predicate Retried(cfg: Config, req: Request, provider: Provider, outcomes: nat -> Attempt, e: Effect) {
    var n := |BackoffDelays(cfg)|;
    if NoneGood(req, outcomes, n) then
      e.result == Exhausted && e.dispatched == Repeat(provider, n) &&
      e.slept == if n == 0 then 0.0 else SleptAfter(cfg, n - 1)
    else
      exists k :: 0 <= k < n && FirstGood(req, outcomes, k) &&
        e == Effect(ResponseOf(req, provider, outcomes(k)), Repeat(provider, k + 1), SleptAfter(cfg, k))
  }

  predicate Called(cfg: Config, c: Classification, req: Request, outcomes: nat -> Attempt, e: Effect) {
    match RouteOf(cfg, c)
    case ToLocal => e == Effect(LocalResult(req), [], 0.0)
    case Nowhere(r) => e == Effect(r, [], 0.0)
    case ToProvider(p) => Retried(cfg, req, p, outcomes, e)
  }

  class Client {
    const cfg: Config
    var usageLog: seq<Usage>

    constructor (cfg: Config)
      ensures this.cfg == cfg && usageLog == []
    {
      this.cfg := cfg;
      usageLog := [];
    }

    method RecordUsage(u: Usage)
      modifies this
      ensures usageLog == old(usageLog) + [u]
    {
      usageLog := usageLog + [u];
    }

    method ResetUsage()
      modifies this
      ensures usageLog == []
    {
      usageLog := [];
    }

    method CumulativeUsage() returns (u: Usage)
      ensures u == Total(usageLog)
    {
      u := Total(usageLog);
    }

    method Call(req: Request, c: Classification, outcomes: nat -> Attempt) returns (e: Effect)
      modifies this
      ensures Called(cfg, c, req, outcomes, e)
      ensures usageLog == old(usageLog) + Logged(e.result)
    {
      if c !in Routing(cfg) {
        return Effect(NoRoute, [], 0.0);
      }
      var provider := Routing(cfg)[c];
      if c == Restricted {
        provider := Local;
      }
      if provider == Local {
        return Effect(LocalResult(req), [], 0.0);
      }
      if provider !in Available(cfg) {
        return Effect(NoKey, [], 0.0);
      }
      e := CallExternalWithRetry(req, provider, outcomes);
    }

    method CallExternalWithRetry(req: Request, provider: Provider, outcomes: nat -> Attempt)
      returns (e: Effect)
      requires provider != Local
      modifies this
      ensures Retried(cfg, req, provider, outcomes, e)
      ensures usageLog == old(usageLog) + Logged(e.result)
    {
      hide Pow2, SleptAfter;
      var delays := BackoffDelays(cfg);
      var dispatched: seq<Provider> := [];
      var slept := 0.0;
      SleptNothing(cfg);
      for attempt := 0 to |delays|
        invariant NoneGood(req, outcomes, attempt)
        invariant dispatched == Repeat(provider, attempt)
        invariant slept == SleptAfter(cfg, if attempt < |delays| || attempt == 0 then attempt else attempt - 1)
        invariant usageLog == old(usageLog)
      {
        var raw := outcomes(attempt);
        dispatched := dispatched + [provider];
        assert dispatched == Repeat(provider, attempt + 1);
        if raw.Reply? {
          var parsed := Parsed(req, raw.text);
          if parsed.Some? {
            RecordUsage(raw.usage);
            assert FirstGood(req, outcomes, attempt);
            return Effect(Response(provider, raw.text, parsed.value, raw.usage), dispatched, slept);
          }
        }
        if attempt < |delays| - 1 {
          SleptStep(cfg, attempt);
          slept := slept + delays[attempt];
        }
      }
      e := Effect(Exhausted, dispatched, slept);
    }
  }

  lemma SleptNothing(cfg: Config)
    ensures SleptAfter(cfg, 0) == 0.0
  {
  }

  function Total(log: seq<Usage>): Usage {
    if log == [] then Usage(0, 0) else
      var t, u := Total(log[..|log| - 1]), log[|log| - 1];
      Usage(t.input + u.input, t.output + u.output)
  }

  // ---------- what one call does, from its inputs ----------

  /** The routing table a client uses: its own, or the default one when that is empty. */
  predicate InForce(cfg: Config, table: map<Classification, Provider>) {
    if cfg.table != map[] then table == cfg.table
    else table == map[
      Restricted := Local, Confidential := Anthropic, Internal := Anthropic, Public := OpenRouter]
  }

  /** The three ways not to reach an external provider: no entry in the table is NoRoute; RESTRICTED
      data, and any routed to the local provider, is dealt with locally; a provider without a key is
      NoKey. None of them calls a provider or sleeps. */
  lemma CallRouted(cfg: Config, table: map<Classification, Provider>, c: Classification, req: Request,
      outcomes: nat -> Attempt, e: Effect)
    requires InForce(cfg, table) && Called(cfg, c, req, outcomes, e)
    ensures e.result == NoRoute <==> c !in table
    ensures (e.result.Response? && e.result.provider == Local) || e.result == LocalSchemaError <==>
      c in table && (c == Restricted || table[c] == Local)
    ensures e.result == NoKey <==>
      c in table && c != Restricted && table[c] != Local && table[c] !in cfg.keys
    ensures !(c in table && c != Restricted && table[c] != Local && table[c] in cfg.keys) ==>
      e.dispatched == [] && e.slept == 0.0
  {
    assert Routing(cfg) == table;
    hide SleptAfter, Parsed;
  }

  /** A local answer is empty for a request without structure, and the schema's defaults otherwise. */
  lemma LocalAnswer(cfg: Config, c: Classification, req: Request, outcomes: nat -> Attempt, e: Effect)
    requires Called(cfg, c, req, outcomes, e)
    requires (e.result.Response? && e.result.provider == Local) || e.result == LocalSchemaError
    ensures !req.structured || req.schema.None? ==> e.result == Response(Local, "", None, Usage(0, 0))
    ensures req.structured && req.schema.Some? ==>
      var d := req.schema.value.localDefaults;
      e.result == if d.None? then LocalSchemaError else Response(Local, d.value, d, Usage(0, 0))
  {
    hide SleptAfter, Parsed;
  }

  /** A reply that the request's schema, if it is used, does not reject. */
  predicate Usable(req: Request, a: Attempt) {
    a.Reply? && (req.structured && req.schema.Some? ==> req.schema.value.parse(a.text).Some?)
  }

  /** The answer to attempt k: its text and usage, and its parsed value if it is to be parsed. */
  predicate AnswersWith(req: Request, p: Provider, a: Attempt, result: Result) {
    a.Reply? &&
    result == Response(p, a.text,
      (if req.structured && req.schema.Some? then req.schema.value.parse(a.text) else None), a.usage)
  }

  /** With a key, the provider is tried until a usable reply comes, at most max_retries times, and the
      client sleeps the delays between the attempts. */
  lemma ExternalAnswer(cfg: Config, table: map<Classification, Provider>, c: Classification, req: Request,
      outcomes: nat -> Attempt, e: Effect) returns (k: nat)
    requires InForce(cfg, table) && Called(cfg, c, req, outcomes, e)
    requires c in table && c != Restricted && table[c] != Local && table[c] in cfg.keys
    ensures k <= cfg.maxRetries || k == 0
    ensures |e.dispatched| == k && forall j :: 0 <= j < k ==> e.dispatched[j] == table[c]
    ensures e.slept == Vectors.SumTo(BackoffDelays(cfg), if k == 0 then 0 else k - 1)
    ensures forall j :: 0 <= j < k - 1 ==> !Usable(req, outcomes(j))
    ensures e.result != Exhausted ==>
      k > 0 && Usable(req, outcomes(k - 1)) && AnswersWith(req, table[c], outcomes(k - 1), e.result)
    ensures e.result == Exhausted ==>
      (k == 0 <==> cfg.maxRetries <= 0) && (k > 0 ==> k == cfg.maxRetries && !Usable(req, outcomes(k - 1)))
  {
    assert Routing(cfg) == table;
    assert Retried(cfg, req, table[c], outcomes, e);
    UsableIsGood(req);
    hide SleptAfter, Parsed, Called, Routing;
    var n := MaxAttempts(cfg);
    if NoneGood(req, outcomes, n) {
      k := n;
    } else {
      var j :| 0 <= j < n && FirstGood(req, outcomes, j) &&
        e == Effect(ResponseOf(req, table[c], outcomes(j)), Repeat(table[c], j + 1), SleptAfter(cfg, j));
      k := j + 1;
      AnswerIs(req, table[c], outcomes(j));
    }
    SleptIsDelays(cfg, if k == 0 then 0 else k - 1);
    SleptNothing(cfg);
  }

  lemma UsableIsGood(req: Request)
    ensures forall a :: Usable(req, a) <==> Good(req, a)
  {
  }

  lemma AnswerIs(req: Request, p: Provider, a: Attempt)
    requires Good(req, a)
    ensures AnswersWith(req, p, a, ResponseOf(req, p, a))
  {
  }

  /** The delays start at the base delay, and each is twice the one before it. */
  lemma DelaysDouble(cfg: Config)
    ensures |BackoffDelays(cfg)| == if cfg.maxRetries > 0 then cfg.maxRetries else 0
    ensures cfg.maxRetries > 0 ==> BackoffDelays(cfg)[0] == cfg.baseDelay
    ensures forall k :: 0 <= k < cfg.maxRetries - 1 ==> BackoffDelays(cfg)[k + 1] == 2.0 * BackoffDelays(cfg)[k]
  {
    var d := BackoffDelays(cfg);
    forall k | 0 <= k < cfg.maxRetries - 1 ensures d[k + 1] == 2.0 * d[k] {
      DoubleDelay(cfg.baseDelay, Pow2(k), Pow2(k + 1));
    }
  }

  lemma DoubleDelay(b: real, p: int, q: int)
    requires q == 2 * p
    ensures b * q as real == 2.0 * (b * p as real)
  {
    assert q as real == 2.0 * p as real;
  }

  /** The closed form of the time slept is the sum of the first k delays. */
  lemma {:induction false} SleptIsDelays(cfg: Config, k: nat)
    requires k <= |BackoffDelays(cfg)|
    ensures SleptAfter(cfg, k) == Vectors.SumTo(BackoffDelays(cfg), k)
  {
    if k == 0 {
      SleptNothing(cfg);
    } else {
      SleptIsDelays(cfg, k - 1);
      SleptStep(cfg, k - 1);
      hide SleptAfter;
    }
  }

  // ---------- properties of one call ----------

  /** RESTRICTED data never reaches an external provider, whatever the routing table and keys. */
  lemma RestrictedStaysLocal(cfg: Config, req: Request, outcomes: nat -> Attempt, e: Effect)
    requires Called(cfg, Restricted, req, outcomes, e)
    ensures e.dispatched == []
    ensures e.result.Response? ==> e.result.provider == Local
  {
  }

  /** RESTRICTED data is answered locally exactly when the routing table has an entry for it (the
      lookup comes before the override) and the request's schema, if it is used, accepts the local
      defaults. */
  lemma RestrictedAnsweredExactly(cfg: Config, req: Request, outcomes: nat -> Attempt, e: Effect)
    requires Called(cfg, Restricted, req, outcomes, e)
    ensures e.result.Response? <==>
      (Restricted in Routing(cfg) &&
       (req.structured && req.schema.Some? ==> req.schema.value.localDefaults.Some?))
  {
  }

  /** A table without that entry leaves RESTRICTED calls unanswered. */
  lemma RestrictedUnrouted(e: Effect)
    requires Called(Config(map[Public := OpenRouter], {}, 3, 1.0), Restricted, Request(false, None),
                    (k: nat) => Raises, e)
    ensures e.result == NoRoute
  {
    assert Public in map[Public := OpenRouter];
  }

  /** Every provider call goes to the routed provider, which has a key; there are at most
      max_retries of them; and a call is answered externally exactly when some attempt within that
      bound is good. */
  lemma DispatchDisciplined(cfg: Config, c: Classification, req: Request,
      outcomes: nat -> Attempt, e: Effect)
    requires Called(cfg, c, req, outcomes, e)
    ensures forall k :: 0 <= k < |e.dispatched| ==>
      c in Routing(cfg) && e.dispatched[k] == Routing(cfg)[c] && e.dispatched[k] in cfg.keys - {Local}
    ensures |e.dispatched| <= MaxAttempts(cfg)
    ensures Logged(e.result) != [] <==>
      RouteOf(cfg, c).ToProvider? && !NoneGood(req, outcomes, |BackoffDelays(cfg)|)
  {
  }

  lemma FirstGoodUnique(req: Request, outcomes: nat -> Attempt, k: nat, k': nat)
    requires FirstGood(req, outcomes, k) && FirstGood(req, outcomes, k')
    ensures k == k'
  {
    hide Good;
  }

  lemma RetriedUnique(cfg: Config, req: Request, p: Provider, outcomes: nat -> Attempt, e: Effect, e': Effect)
    requires Retried(cfg, req, p, outcomes, e) && Retried(cfg, req, p, outcomes, e')
    ensures e == e'
  {
    hide SleptAfter, ResponseOf, Parsed, NoneGood;
    var n := |BackoffDelays(cfg)|;
    if !NoneGood(req, outcomes, n) {
      var k :| 0 <= k < n && FirstGood(req, outcomes, k) &&
        e == Effect(ResponseOf(req, p, outcomes(k)), Repeat(p, k + 1), SleptAfter(cfg, k));
      var k' :| 0 <= k' < n && FirstGood(req, outcomes, k') &&
        e' == Effect(ResponseOf(req, p, outcomes(k')), Repeat(p, k' + 1), SleptAfter(cfg, k'));
      FirstGoodUnique(req, outcomes, k, k');
    }
  }

  /** A call's effect is determined by the outcomes it meets. */
  lemma EffectUnique(cfg: Config, c: Classification, req: Request,
      outcomes: nat -> Attempt, e: Effect, e': Effect)
    requires Called(cfg, c, req, outcomes, e) && Called(cfg, c, req, outcomes, e')
    ensures e == e'
  {
    hide Retried;
    if RouteOf(cfg, c).ToProvider? {
      RetriedUnique(cfg, req, RouteOf(cfg, c).provider, outcomes, e, e');
    }
  }

  // ---------- runs of calls and resets ----------

  datatype Event = Answered(c: Classification, effect: Effect) | Reset

  /** The usage log after a run of calls, each with the effect it had, and resets. */
  function LogAfter(events: seq<Event>): seq<Usage> {
    if events == [] then [] else
      var m := |events| - 1;
      match events[m]
      case Answered(_, e) => LogAfter(events[..m]) + Logged(e.result)
      case Reset => []
  }

  /** Where the run stands after its last reset. */
  function SinceReset(events: seq<Event>): (k: nat)
    ensures k <= |events|
    ensures k > 0 ==> events[k - 1].Reset?
    ensures forall l :: k <= l < |events| ==> events[l].Answered?
  {
    if events == [] then 0
    else if events[|events| - 1].Reset? then |events|
    else SinceReset(events[..|events| - 1])
  }

  /** The usage of the external responses in a stretch of a run. */
  function ResponseUsage(events: seq<Event>): Usage {
    if events == [] then Usage(0, 0) else
      var m := |events| - 1;
      var t := ResponseUsage(events[..m]);
      if events[m].Answered? && events[m].effect.result.Response? && events[m].effect.result.provider != Local
      then Usage(t.input + events[m].effect.result.usage.input, t.output + events[m].effect.result.usage.output)
      else t
  }

  lemma {:induction false} TotalAppend(log: seq<Usage>, u: Usage)
    ensures Total(log + [u]) == Usage(Total(log).input + u.input, Total(log).output + u.output)
  {
    assert (log + [u])[..|log|] == log;
  }

  lemma {:induction false} EventAppend(events: seq<Event>, c: Classification, e: Effect)
    ensures LogAfter(events + [Answered(c, e)]) == LogAfter(events) + Logged(e.result)
    ensures SinceReset(events + [Answered(c, e)]) == SinceReset(events)
    ensures ResponseUsage(events + [Answered(c, e)]) ==
      (if Logged(e.result) != [] then
         Usage(ResponseUsage(events).input + e.result.usage.input,
               ResponseUsage(events).output + e.result.usage.output)
       else ResponseUsage(events))
  {
    assert (events + [Answered(c, e)])[..|events|] == events;
  }

  lemma {:induction false} UsageStep(before: seq<Event>, c: Classification, e: Effect)
    requires Total(LogAfter(before)) == ResponseUsage(before[SinceReset(before)..])
    ensures var events := before + [Answered(c, e)];
      Total(LogAfter(events)) == ResponseUsage(events[SinceReset(events)..])
  {
    hide LogAfter, SinceReset, ResponseUsage, Total;
    var events, k := before + [Answered(c, e)], SinceReset(before);
    EventAppend(before, c, e);
    EventAppend(before[k..], c, e);
    assert events[k..] == before[k..] + [Answered(c, e)];
    if Logged(e.result) != [] {
      TotalAppend(LogAfter(before), e.result.usage);
    } else {
      assert LogAfter(before) + [] == LogAfter(before);
    }
  }

  /** Cumulative usage is the usage of the external responses since the last reset: failed attempts,
      replies that do not parse and local answers are not counted. */
  lemma {:induction false} UsageSinceReset(events: seq<Event>)
    ensures Total(LogAfter(events)) == ResponseUsage(events[SinceReset(events)..])
  {
    if events != [] {
      var m := |events| - 1;
      if events[m].Answered? {
        UsageSinceReset(events[..m]);
        UsageStep(events[..m], events[m].c, events[m].effect);
        assert events == events[..m] + [Answered(events[m].c, events[m].effect)];
      } else {
        AfterReset(events);
      }
    }
  }

  lemma {:induction false} AfterReset(events: seq<Event>)
    requires events != [] && events[|events| - 1].Reset?
    ensures Total(LogAfter(events)) == ResponseUsage(events[SinceReset(events)..])
  {
    assert events[|events|..] == [];
  }

  /** A run as the client produces it: every answered event is the effect of a call against some
      request and some outcomes. */
  ghost predicate Produced(cfg: Config, events: seq<Event>) {
    forall k :: 0 <= k < |events| && events[k].Answered? ==> HasCause(cfg, events[k].c, events[k].effect)
  }

  /** What a caller asks of the client, with the outcomes the attempts will meet. */
  datatype Action = Ask(c: Classification, req: Request, outcomes: nat -> Attempt) | ClearUsage

  predicate Performs(cfg: Config, action: Action, event: Event) {
    match action
    case Ask(c, req, outcomes) =>
      event.Answered? && event.c == c && Called(cfg, c, req, outcomes, event.effect)
    case ClearUsage => event.Reset?
  }

  /** Each event is what the action at its place does. */
  predicate Performed(cfg: Config, actions: seq<Action>, events: seq<Event>) {
    |events| == |actions| && forall k :: 0 <= k < |events| ==> Performs(cfg, actions[k], events[k])
  }

  /** A new client driven through a run: every event is what the action at its place does, and the
      cumulative usage reported at the end is that of the external responses since the last reset. */
  method Drive(cfg: Config, actions: seq<Action>) returns (events: seq<Event>, usage: Usage)
    ensures Performed(cfg, actions, events) && Produced(cfg, events)
    ensures usage == ResponseUsage(events[SinceReset(events)..])
  {
    hide Called, Total, ResponseUsage, SinceReset;
    var client := new Client(cfg);
    events := [];
    for k := 0 to |actions|
      invariant client.cfg == cfg && fresh(client)
      invariant Performed(cfg, actions[..k], events)
      invariant client.usageLog == LogAfter(events)
    {
      match actions[k] {
        case Ask(c, req, outcomes) =>
          var effect := client.Call(req, c, outcomes);
          LogNext(events, Answered(c, effect));
          events := events + [Answered(c, effect)];
        case ClearUsage =>
          client.ResetUsage();
          LogNext(events, Reset);
          events := events + [Reset];
      }
    }
    assert actions[..|actions|] == actions;
    PerformedIsProduced(cfg, actions, events);
    UsageSinceReset(events);
    usage := client.CumulativeUsage();
  }

  lemma {:induction false} LogNext(events: seq<Event>, event: Event)
    ensures LogAfter(events + [event]) ==
      if event.Reset? then [] else LogAfter(events) + Logged(event.effect.result)
  {
    assert (events + [event])[..|events|] == events;
  }

  lemma PerformedIsProduced(cfg: Config, actions: seq<Action>, events: seq<Event>)
    requires Performed(cfg, actions, events)
    ensures Produced(cfg, events)
  {
    hide Called;
    forall k | 0 <= k < |events| && events[k].Answered? ensures HasCause(cfg, events[k].c, events[k].effect) {
      assert Performs(cfg, actions[k], events[k]);
    }
  }

  /** The actions determine the events. */
  lemma RunUnique(cfg: Config, actions: seq<Action>, a: seq<Event>, b: seq<Event>)
    requires Performed(cfg, actions, a) && Performed(cfg, actions, b)
    ensures a == b
  {
    hide Called;
    forall k | 0 <= k < |actions| ensures a[k] == b[k] {
      assert Performs(cfg, actions[k], a[k]) && Performs(cfg, actions[k], b[k]);
      match actions[k] {
        case Ask(c, req, outcomes) => EffectUnique(cfg, c, req, outcomes, a[k].effect, b[k].effect);
        case ClearUsage =>
      }
    }
  }

  ghost predicate HasCause(cfg: Config, c: Classification, e: Effect) {
    exists req: Request, outcomes: nat -> Attempt :: Called(cfg, c, req, outcomes, e)
  }

  /** Over every run, no event of RESTRICTED data dispatched anything, and every dispatch of any
      event went to a provider with a key, within the retry bound. */
  lemma RunDisciplined(cfg: Config, events: seq<Event>, k: nat)
    requires Produced(cfg, events) && k < |events| && events[k].Answered?
    ensures events[k].c == Restricted ==> events[k].effect.dispatched == []
    ensures |events[k].effect.dispatched| <= MaxAttempts(cfg)
    ensures forall l :: 0 <= l < |events[k].effect.dispatched| ==>
      events[k].effect.dispatched[l] in cfg.keys - {Local}
  {
  }

  // ---------- budgets ----------

  /** The longest a single call can sleep. */
  function MaxSleep(cfg: Config): real {
    if MaxAttempts(cfg) == 0 then 0.0 else SleptAfter(cfg, MaxAttempts(cfg) - 1)
  }

  lemma {:induction false} Pow2Monotone(a: nat, b: nat)
    requires a <= b
    ensures Pow2(a) <= Pow2(b)
  {
    if a < b {
      Pow2Monotone(a, b - 1);
    }
  }

  lemma SleptMonotone(cfg: Config, a: nat, b: nat)
    requires a <= b && cfg.baseDelay >= 0.0
    ensures 0.0 <= SleptAfter(cfg, a) <= SleptAfter(cfg, b)
  {
    Pow2Monotone(a, b);
    var x, y := (Pow2(a) - 1) as real, (Pow2(b) - 1) as real;
    assert cfg.baseDelay * x >= 0.0;
    assert cfg.baseDelay * (y - x) >= 0.0;
  }

  /** A retry loop of n attempts makes some j <= n of them and sleeps the delays before the last. */
  lemma AttemptsMade(cfg: Config, req: Request, p: Provider, outcomes: nat -> Attempt,
      e: Effect) returns (j: nat)
    requires Retried(cfg, req, p, outcomes, e)
    ensures j <= MaxAttempts(cfg) && |e.dispatched| == j && (j > 0 || MaxAttempts(cfg) == 0)
    ensures e.slept == if j == 0 then 0.0 else SleptAfter(cfg, j - 1)
  {
    hide SleptAfter, ResponseOf, Parsed, Pow2;
    var n := MaxAttempts(cfg);
    if NoneGood(req, outcomes, n) {
      j := n;
    } else {
      var k :| 0 <= k < n && FirstGood(req, outcomes, k) &&
        e == Effect(ResponseOf(req, p, outcomes(k)), Repeat(p, k + 1), SleptAfter(cfg, k));
      j := k + 1;
    }
  }

  /** One call makes at most max_retries provider calls and sleeps at most the delays between them;
      a RESTRICTED one does neither. */
  lemma CallBudget(cfg: Config, c: Classification, req: Request,
      outcomes: nat -> Attempt, e: Effect)
    requires Called(cfg, c, req, outcomes, e) && cfg.baseDelay >= 0.0
    ensures |e.dispatched| <= (if c == Restricted then 0 else MaxAttempts(cfg))
    ensures 0.0 <= e.slept <= (if c == Restricted then 0.0 else MaxSleep(cfg))
  {
    hide SleptAfter, Retried, MaxAttempts;
    var n := MaxAttempts(cfg);
    SleptNothing(cfg);
    if n > 0 {
      SleptMonotone(cfg, 0, n - 1);
    }
    if RouteOf(cfg, c).ToProvider? {
      var j := AttemptsMade(cfg, req, RouteOf(cfg, c).provider, outcomes, e);
      if j > 0 {
        SleptMonotone(cfg, j - 1, n - 1);
      }
    }
  }

  function Dispatches(events: seq<Event>): nat {
    if events == [] then 0 else
      var m := |events| - 1;
      Dispatches(events[..m]) + if events[m].Answered? then |events[m].effect.dispatched| else 0
  }

  function SleepTime(events: seq<Event>): real {
    if events == [] then 0.0 else
      var m := |events| - 1;
      SleepTime(events[..m]) + if events[m].Answered? then events[m].effect.slept else 0.0
  }

  /** The number of calls made for data that is not RESTRICTED. */
  function UnrestrictedCalls(events: seq<Event>): nat {
    if events == [] then 0 else
      var m := |events| - 1;
      UnrestrictedCalls(events[..m]) + if events[m].Answered? && events[m].c != Restricted then 1 else 0
  }

  /** Over every run, provider calls and sleeping are bounded by the number of calls made for data
      that is not RESTRICTED, however the providers behave. */
  lemma {:induction false} RunBudget(cfg: Config, events: seq<Event>)
    requires Produced(cfg, events) && cfg.baseDelay >= 0.0
    ensures Dispatches(events) <= MaxAttempts(cfg) * UnrestrictedCalls(events)
    ensures SleepTime(events) <= MaxSleep(cfg) * UnrestrictedCalls(events) as real
  {
    hide Called, MaxSleep, MaxAttempts;
    if events != [] {
      var m := |events| - 1;
      RunBudget(cfg, events[..m]);
      var n, a, s := UnrestrictedCalls(events[..m]), MaxAttempts(cfg), MaxSleep(cfg);
      assert a * (n + 1) == a * n + a && s * (n + 1) as real == s * n as real + s;
      if events[m].Answered? {
        var c, e := events[m].c, events[m].effect;
        assert HasCause(cfg, c, e);
        var req: Request, outcomes: nat -> Attempt :| Called(cfg, c, req, outcomes, e);
        CallBudget(cfg, c, req, outcomes, e);
      }
    }
  }
}
