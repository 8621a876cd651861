/** Translating one batch (`translateBatch`): two attempts, a fresh client after every failure, and
  * halving when a prompt for several keys times out.
  *
  * The backend is an arbitrary function from the attempt number to what that attempt meets. */
module BatchTranslation {
  import opened JsText
  import opened Lists
  import opened TranslationBatches

  const TRANSLATE_MAX_ATTEMPTS := 2
  const NO_ERROR := "translation failed"

  /** An answer holds the string-valued properties of the parsed reply; every other way a prompt can end
    * (rejection, text that is not JSON) is an error message. */
  datatype Reply = Answer(values: map<string, string>) | Error(message: string)

  /** The client is created only when there is none, and creating it may fail. */
  datatype Attempt = Attempt(createError: Option<string>, reply: Reply)
  type Backend = nat -> Attempt

  /** A prompt that was sent: by which attempt, over which client, for which items, and how it ended. */
  datatype Sent = Sent(attempt: nat, client: nat, items: seq<Item>, ok: bool)

  /** One attempt: its number, the items it was for, and whether a client was there to prompt. */
  datatype Ask = Ask(attempt: nat, items: seq<Item>, prompted: bool)

  datatype Access = Access(attempts: nat, client: Option<nat>, created: nat, sent: seq<Sent>, asked: seq<Ask>)

  datatype Result = Translated(values: map<string, string>) | Failed(message: string)

  predicate IsPromptTimeout(message: string) {
    Includes(ToLowerCase(message), "timed out")
  }

  /** Reads one non-blank string per item out of the reply, or fails on the first item without one. */
  function Collect(items: seq<Item>, values: map<string, string>): Result {
    if items == [] then Translated(map[])
    else
      var key := items[0].key;
      if key !in values || IsBlank(values[key]) then Failed("missing translation for " + key)
      else
        Prepend(map[key := values[key]], Collect(items[1..], values))
  }

  function Prepend(first: map<string, string>, result: Result): Result {
    match result
    case Translated(rest) => Translated(first + rest)
    case Failed(_) => result
  }

  function ReplyResult(items: seq<Item>, reply: Reply): Result {
    match reply
    case Answer(values) => Collect(items, values)
    case Error(message) => Failed(message)
  }

  /** One attempt: get a client, prompt it, check the reply; discard the client on any failure. */
  function Try(access: Access, items: seq<Item>, backend: Backend): (Access, Result) {
    var attempt := backend(access.attempts);
    if access.client.None? && attempt.createError.Some? then
      (access.(attempts := access.attempts + 1, asked := access.asked + [Ask(access.attempts, items, false)]),
       Failed(attempt.createError.value))
    else
      var client := if access.client.Some? then access.client.value else access.created;
      var result := ReplyResult(items, attempt.reply);
      (Access(access.attempts + 1,
              if result.Translated? then Some(client) else None,
              if access.client.Some? then access.created else access.created + 1,
              access.sent + [Sent(access.attempts, client, items, result.Translated?)],
              access.asked + [Ask(access.attempts, items, true)]),
       result)
  }

  function Translate(access: Access, items: seq<Item>, tries: nat, lastError: string,
                     backend: Backend): (Access, Result)
    decreases |items|, TRANSLATE_MAX_ATTEMPTS - tries
  {
    if tries >= TRANSLATE_MAX_ATTEMPTS then (access, Failed(lastError))
    else
      var (access, result) := Try(access, items, backend);
      if result.Translated? then (access, result)
      else if IsPromptTimeout(result.message) then
        if |items| > 1 then Halves(access, items, backend) else (access, result)
      else Translate(access, items, tries + 1, result.message, backend)
  }

  /** `Math.ceil(items.length / 2)`. */
  function Midpoint(items: seq<Item>): (m: nat)
    requires |items| > 1
    ensures 0 < m < |items|
  {
    (|items| + 1) / 2
  }

  function Halves(access: Access, items: seq<Item>, backend: Backend): (Access, Result)
    requires |items| > 1
    decreases |items|, 0
  {
    var midpoint := Midpoint(items);
    var (access, left) := Translate(access, items[..midpoint], 0, NO_ERROR, backend);
    if left.Failed? then (access, left)
    else
      var (access, right) := Translate(access, items[midpoint..], 0, NO_ERROR, backend);
      if right.Failed? then (access, right)
      else (access, Translated(left.values + right.values))
  }

  // ----- the loop of the source -----

  class ClientAccess {
    const backend: Backend
    var access: Access

    constructor (backend: Backend)
      ensures this.backend == backend && access == Access(0, None, 0, [], [])
    {
      this.backend := backend;
      access := Access(0, None, 0, [], []);
    }

    /** `getClient` and `prompt`; the client created on the way stays for the next attempt. */
    method Prompt(items: seq<Item>) returns (reply: Reply)
      modifies this
      ensures var attempt := backend(old(access).attempts);
        if old(access).client.None? && attempt.createError.Some? then
          && reply == Error(attempt.createError.value)
          && access == old(access).(
               attempts := old(access).attempts + 1,
               asked := old(access).asked + [Ask(old(access).attempts, items, false)])
        else
          reply == attempt.reply && access == Try(old(access), items, backend).0.(
            client := Some(if old(access).client.Some? then old(access).client.value else old(access).created))
    {
      var attempt := backend(access.attempts);
      if access.client.None? {
        if attempt.createError.Some? {
          access := access.(
            asked := access.asked + [Ask(access.attempts, items, false)],
            attempts := access.attempts + 1);
          return Error(attempt.createError.value);
        }
        access := access.(client := Some(access.created), created := access.created + 1);
      }
      reply := attempt.reply;
      access := access.(
        sent := access.sent + [Sent(access.attempts, access.client.value, items,
          ReplyResult(items, reply).Translated?)],
        asked := access.asked + [Ask(access.attempts, items, true)],
        attempts := access.attempts + 1);
    }

    method ResetClient()
      modifies this
      ensures access == old(access).(client := None)
    {
      access := access.(client := None);
    }

    method TranslateBatch(items: seq<Item>) returns (result: Result)
      modifies this
      ensures (access, result) == Translate(old(access), items, 0, NO_ERROR, backend)
      decreases |items|
    {
      var lastError := NO_ERROR;
      var attempt := 0;
      while attempt < TRANSLATE_MAX_ATTEMPTS
        invariant attempt <= TRANSLATE_MAX_ATTEMPTS
        invariant Translate(access, items, attempt, lastError, backend)
               == Translate(old(access), items, 0, NO_ERROR, backend)
      {
        ghost var before := access;
        var reply := Prompt(items);
        result := ReadReply(items, reply);
        if result.Translated? {
          return;
        }
        lastError := result.message;
        ResetClient();
        assert (access, result) == Try(before, items, backend);
        if IsPromptTimeout(lastError) && |items| > 1 {
          var midpoint := Midpoint(items);
          var left := TranslateBatch(items[..midpoint]);
          if left.Failed? {
            return left;
          }
          var right := TranslateBatch(items[midpoint..]);
          if right.Failed? {
            return right;
          }
          return Translated(left.values + right.values);
        }
        if IsPromptTimeout(lastError) {
          break;
        }
        attempt := attempt + 1;
      }
      result := Failed(lastError);
    }
  }

  method ReadReply(items: seq<Item>, reply: Reply) returns (result: Result)
    ensures result == ReplyResult(items, reply)
  {
    if reply.Error? {
      return Failed(reply.message);
    }
    var translated: map<string, string> := map[];
    PrependEmpty(Collect(items, reply.values));
    for i := 0 to |items|
      invariant Collect(items, reply.values) == Prepend(translated, Collect(items[i..], reply.values))
    {
      var key := items[i].key;
      assert items[i..][1..] == items[i + 1..];
      if key !in reply.values || IsBlank(reply.values[key]) {
        return Failed("missing translation for " + key);
      }
      PrependTwice(translated, map[key := reply.values[key]], Collect(items[i + 1..], reply.values));
      translated := translated + map[key := reply.values[key]];
    }
    assert translated + map[] == translated;
    result := Translated(translated);
  }

  lemma PrependEmpty(result: Result)
    ensures Prepend(map[], result) == result
  {
    if result.Translated? {
      assert map[] + result.values == result.values;
    }
  }

  lemma PrependTwice(a: map<string, string>, b: map<string, string>, result: Result)
    ensures Prepend(a, Prepend(b, result)) == Prepend(a + b, result)
  {
    if result.Translated? {
      assert a + (b + result.values) == (a + b) + result.values;
    }
  }

  // ----- how many prompts a batch may cost -----

  function PromptBudget(n: nat): nat {
    if n == 0 then 2 else 4 * n - 2
  }

  /** A batch of n >= 1 items costs at most 4n - 2 prompts, whatever the backend does. */
  lemma {:induction false} TranslateBounded(access: Access, items: seq<Item>, tries: nat, lastError: string,
                                            backend: Backend)
    requires tries <= TRANSLATE_MAX_ATTEMPTS
    ensures var (after, _) := Translate(access, items, tries, lastError, backend);
      access.sent <= after.sent && |after.sent| - |access.sent| <= PromptBudget(|items|) - tries
    decreases |items|, TRANSLATE_MAX_ATTEMPTS - tries
  {
    if tries < TRANSLATE_MAX_ATTEMPTS {
      var (tried, result) := Try(access, items, backend);
      if result.Failed? && !IsPromptTimeout(result.message) {
        TranslateBounded(tried, items, tries + 1, result.message, backend);
      } else if result.Failed? && |items| > 1 {
        HalvesBounded(tried, items, backend);
      }
    }
  }

  lemma {:induction false} HalvesBounded(access: Access, items: seq<Item>, backend: Backend)
    requires |items| > 1
    ensures var (after, _) := Halves(access, items, backend);
      access.sent <= after.sent && |after.sent| - |access.sent| <= PromptBudget(|items|) - 2
    decreases |items|, 0
  {
    var midpoint := Midpoint(items);
    TranslateBounded(access, items[..midpoint], 0, NO_ERROR, backend);
    var (middle, left) := Translate(access, items[..midpoint], 0, NO_ERROR, backend);
    TranslateBounded(middle, items[midpoint..], 0, NO_ERROR, backend);
  }

  /** The worst backend: each batch meets one unusable reply, then a timeout (or, for a single item, its
    * translation), and so on in the order in which the halves are tried. */
  ghost predicate Worst(backend: Backend, start: nat, items: seq<Item>)
    requires |items| >= 1
    decreases |items|
  {
    && backend(start) == Attempt(None, Error(""))
    && (if |items| == 1 then backend(start + 1) == Attempt(None, Answer(map[items[0].key := "x"]))
        else
          && backend(start + 1) == Attempt(None, Error("timed out"))
          && Worst(backend, start + 2, items[..Midpoint(items)])
          && Worst(backend, start + 2 + PromptBudget(Midpoint(items)), items[Midpoint(items)..]))
  }

  /** The bound is attained: against that backend a batch of n items costs exactly 4n - 2 prompts, and succeeds. */
  lemma {:induction false} BoundAttained(access: Access, items: seq<Item>, backend: Backend)
    requires |items| >= 1 && Worst(backend, access.attempts, items)
    ensures var (after, result) := Translate(access, items, 0, NO_ERROR, backend);
      && result.Translated?
      && after.attempts - access.attempts == |after.sent| - |access.sent| == 4 * |items| - 2
    decreases |items|
  {
    BadReplyRetries(access, items, backend);
    if |items| == 1 {
      var values := map[items[0].key := "x"];
      assert items[1..] == [] && Collect(items[1..], values) == Translated(map[]);
      assert !IsSpace(values[items[0].key][0]);
      assert Collect(items, values).Translated?;
    } else {
      HalvesAttain(SecondTry(access, items, backend), items, backend);
    }
  }

  lemma {:induction false} HalvesAttain(access: Access, items: seq<Item>, backend: Backend)
    requires |items| > 1
    requires Worst(backend, access.attempts, items[..Midpoint(items)])
    requires Worst(backend, access.attempts + PromptBudget(Midpoint(items)), items[Midpoint(items)..])
    ensures var (after, result) := Halves(access, items, backend);
      && result.Translated?
      && after.attempts - access.attempts == |after.sent| - |access.sent| == 4 * |items| - 4
    decreases |items|, 0
  {
    hide Worst, Translate, Try;
    BoundAttained(access, items[..Midpoint(items)], backend);
    var (middle, _) := Translate(access, items[..Midpoint(items)], 0, NO_ERROR, backend);
    BoundAttained(middle, items[Midpoint(items)..], backend);
  }

  ghost function SecondTry(access: Access, items: seq<Item>, backend: Backend): Access {
    Try(Try(access, items, backend).0, items, backend).0
  }

  /** A bad reply followed by a timeout halves the batch; followed by an answer it ends it. */
  lemma BadReplyRetries(access: Access, items: seq<Item>, backend: Backend)
    requires backend(access.attempts) == Attempt(None, Error(""))
    requires backend(access.attempts + 1).createError.None?
    ensures var (first, _) := Try(access, items, backend);
      var (second, result) := Try(first, items, backend);
      && second == SecondTry(access, items, backend)
      && second.attempts == access.attempts + 2 && |second.sent| == |access.sent| + 2
      && (result.Translated? ==> Translate(access, items, 0, NO_ERROR, backend) == (second, result))
      && (result == Failed("timed out") && |items| > 1 ==>
            Translate(access, items, 0, NO_ERROR, backend) == Halves(second, items, backend))
  {
    var (first, r1) := Try(access, items, backend);
    assert ToLowerCase("") == "" && !Includes("", "timed out");
    assert r1 == Failed("");
    assert Translate(access, items, 0, NO_ERROR, backend) == Translate(first, items, 1, "", backend);
    assert ToLowerCase("timed out") == "timed out";
  }

  /** Such a backend exists for every batch. */
  ghost function WorstBackend(start: nat, items: seq<Item>): Backend
    requires |items| >= 1
    decreases |items|
  {
    var answer := Attempt(None, if |items| == 1 then Answer(map[items[0].key := "x"]) else Error("timed out"));
    if |items| == 1 then (n: nat) => if n == start + 1 then answer else Attempt(None, Error(""))
    else
      var left := WorstBackend(start + 2, items[..Midpoint(items)]);
      var right := WorstBackend(start + 2 + PromptBudget(Midpoint(items)), items[Midpoint(items)..]);
      (n: nat) =>
        if n == start then Attempt(None, Error(""))
        else if n == start + 1 then answer
        else if n < start + 2 + PromptBudget(Midpoint(items)) then left(n)
        else right(n)
  }

  lemma {:induction false} WorstBackendIsWorst(start: nat, items: seq<Item>)
    requires |items| >= 1
    ensures Worst(WorstBackend(start, items), start, items)
    decreases |items|
  {
    if |items| > 1 {
      var left, right := items[..Midpoint(items)], items[Midpoint(items)..];
      var backend, middle := WorstBackend(start, items), start + 2 + PromptBudget(Midpoint(items));
      WorstBackendIsWorst(start + 2, left);
      WorstBackendIsWorst(middle, right);
      WorstLocal(WorstBackend(start + 2, left), backend, start + 2, left);
      WorstLocal(WorstBackend(middle, right), backend, middle, right);
    }
  }

  lemma {:induction false} WorstLocal(a: Backend, b: Backend, start: nat, items: seq<Item>)
    requires |items| >= 1 && Worst(a, start, items)
    requires forall n: nat | start <= n < start + PromptBudget(|items|) :: a(n) == b(n)
    ensures Worst(b, start, items)
    decreases |items|
  {
    assert a(start) == b(start) && a(start + 1) == b(start + 1);
    if |items| > 1 {
      WorstLocal(a, b, start + 2, items[..Midpoint(items)]);
      WorstLocal(a, b, start + 2 + PromptBudget(Midpoint(items)), items[Midpoint(items)..]);
    }
  }

  // ----- what a batch returns -----

  ghost function Keys(items: seq<Item>): set<string> {
    set i | 0 <= i < |items| :: items[i].key
  }

  /** `text` came out of a prompt sent from position `start` of the log on, for a sub-batch of `items`
    * that contained `key`. */
  ghost predicate FromReply(access: Access, start: nat, items: seq<Item>, backend: Backend, key: string, text: string) {
    exists k | start <= k < |access.sent| ::
      && key in Keys(access.sent[k].items) && Keys(access.sent[k].items) <= Keys(items)
      && backend(access.sent[k].attempt).reply.Answer?
      && var values := backend(access.sent[k].attempt).reply.values; key in values && values[key] == text
  }

  ghost predicate Accounted(access: Access, start: nat, items: seq<Item>, backend: Backend, values: map<string, string>)
  {
    && values.Keys == Keys(items)
    && forall key | key in values :: !IsBlank(values[key]) && FromReply(access, start, items, backend, key, values[key])
  }

  lemma {:induction false} CollectKeys(items: seq<Item>, values: map<string, string>)
    ensures match Collect(items, values)
      case Translated(m) =>
        m.Keys == Keys(items) <= values.Keys && forall key | key in m :: m[key] == values[key] && !IsBlank(m[key])
      case Failed(message) => exists i | 0 <= i < |items| :: message == "missing translation for " + items[i].key
  {
    if items != [] {
      CollectKeys(items[1..], values);
      assert Keys(items) == {items[0].key} + Keys(items[1..]);
      var rest := Collect(items[1..], values);
      if rest.Failed? && items[0].key in values && !IsBlank(values[items[0].key]) {
        var i :| 0 <= i < |items[1..]| && rest.message == "missing translation for " + items[1..][i].key;
        assert items[i + 1] == items[1..][i];
      } else if rest.Failed? {
        assert Collect(items, values) == Failed("missing translation for " + items[0].key);
      }
    }
  }

  /** A batch either fails, or returns exactly the requested keys, each with a non-blank text taken from
    * the reply to a prompt that asked for it. */
  lemma {:induction false} TranslateAccounts(access: Access, items: seq<Item>, tries: nat, lastError: string,
                                             backend: Backend)
    ensures var (after, result) := Translate(access, items, tries, lastError, backend);
      access.sent <= after.sent
        && (result.Translated? ==> Accounted(after, |access.sent|, items, backend, result.values))
    decreases |items|, TRANSLATE_MAX_ATTEMPTS - tries
  {
    if tries < TRANSLATE_MAX_ATTEMPTS {
      var (tried, result) := Try(access, items, backend);
      if result.Translated? {
        var values := backend(access.attempts).reply.values;
        CollectKeys(items, values);
        forall key | key in result.values
          ensures FromReply(tried, |access.sent|, items, backend, key, result.values[key])
        {
          assert tried.sent[|access.sent|].items == items;
        }
      } else if !IsPromptTimeout(result.message) {
        TranslateAccounts(tried, items, tries + 1, result.message, backend);
        var (after, final) := Translate(tried, items, tries + 1, result.message, backend);
        if final.Translated? {
          AccountedFromEarlier(after, |access.sent|, |tried.sent|, items, items, backend, final.values);
        }
      } else if |items| > 1 {
        HalvesAccount(tried, items, backend);
        var (after, final) := Halves(tried, items, backend);
        if final.Translated? {
          AccountedFromEarlier(after, |access.sent|, |tried.sent|, items, items, backend, final.values);
        }
      }
    }
  }

  lemma {:induction false} HalvesAccount(access: Access, items: seq<Item>, backend: Backend)
    requires |items| > 1
    ensures var (after, result) := Halves(access, items, backend);
      access.sent <= after.sent
        && (result.Translated? ==> Accounted(after, |access.sent|, items, backend, result.values))
    decreases |items|, 0
  {
    var midpoint := Midpoint(items);
    var first, second := items[..midpoint], items[midpoint..];
    assert Keys(items) == Keys(first) + Keys(second) by {
      assert items == first + second;
      forall key | key in Keys(items) ensures key in Keys(first) + Keys(second) {
        var i :| 0 <= i < |items| && items[i].key == key;
        if i < midpoint { assert first[i].key == key; } else { assert second[i - midpoint].key == key; }
      }
      forall i | 0 <= i < |second| ensures second[i].key in Keys(items) { assert items[midpoint + i] == second[i]; }
    }
    TranslateAccounts(access, first, 0, NO_ERROR, backend);
    var (middle, left) := Translate(access, first, 0, NO_ERROR, backend);
    TranslateAccounts(middle, second, 0, NO_ERROR, backend);
    var (after, right) := Translate(middle, second, 0, NO_ERROR, backend);
    if left.Translated? && right.Translated? {
      LaterKeeps(middle, after, |access.sent|, first, backend, left.values);
      AccountedFromEarlier(after, |access.sent|, |access.sent|, first, items, backend, left.values);
      AccountedFromEarlier(after, |access.sent|, |middle.sent|, second, items, backend, right.values);
    }
  }

  ghost predicate Sourced(access: Access, start: nat, items: seq<Item>, backend: Backend, values: map<string, string>) {
    forall key | key in values :: !IsBlank(values[key]) && FromReply(access, start, items, backend, key, values[key])
  }

  lemma AccountedFromEarlier(access: Access, start: nat, later: nat, part: seq<Item>, items: seq<Item>,
                             backend: Backend, values: map<string, string>)
    requires start <= later && Keys(part) <= Keys(items) && Sourced(access, later, part, backend, values)
    ensures Sourced(access, start, items, backend, values)
  {
    forall key | key in values ensures FromReply(access, start, items, backend, key, values[key]) {
      assert FromReply(access, later, part, backend, key, values[key]);
    }
  }

  lemma LaterKeeps(access: Access, after: Access, start: nat, items: seq<Item>, backend: Backend,
                   values: map<string, string>)
    requires access.sent <= after.sent && Sourced(access, start, items, backend, values)
    ensures Sourced(after, start, items, backend, values)
  {
    forall key | key in values ensures FromReply(after, start, items, backend, key, values[key]) {
      assert FromReply(access, start, items, backend, key, values[key]);
      var k :| start <= k < |access.sent| && key in Keys(access.sent[k].items)
          && Keys(access.sent[k].items) <= Keys(items)
        && backend(access.sent[k].attempt).reply.Answer?
        && key in backend(access.sent[k].attempt).reply.values
        && backend(access.sent[k].attempt).reply.values[key] == values[key];
      assert after.sent[k] == access.sent[k];
    }
  }

  // ----- when the backend gives up -----

  predicate IsUsable(sent: Sent, backend: Backend) {
    ReplyResult(sent.items, backend(sent.attempt).reply).Translated?
  }

  /** What was asked for in the prompts that got a usable reply, one after the other. */
  ghost function Usable(sent: seq<Sent>, backend: Backend): seq<Item> {
    if sent == [] then []
    else (if IsUsable(sent[0], backend) then sent[0].items else []) + Usable(sent[1..], backend)
  }

  lemma {:induction false} UsableConcat(a: seq<Sent>, b: seq<Sent>, backend: Backend)
    ensures Usable(a + b, backend) == Usable(a, backend) + Usable(b, backend)
  {
    hide IsUsable;
    if a == [] {
      assert a + b == b;
    } else {
      UsableConcat(a[1..], b, backend);
      assert (a + b)[1..] == a[1..] + b;
      AppendAssoc(if IsUsable(a[0], backend) then a[0].items else [], Usable(a[1..], backend), Usable(b, backend));
    }
  }

  /** The prompts sent between two states of the log. */
  ghost function Since(access: Access, after: Access): seq<Sent>
    requires access.sent <= after.sent
  {
    after.sent[|access.sent|..]
  }

  lemma NothingSent(access: Access, backend: Backend)
    ensures Usable(Since(access, access), backend) == [] && UsableTexts(Since(access, access), backend) == []
  {
  }

  lemma SinceSplit(access: Access, middle: Access, after: Access)
    requires access.sent <= middle.sent <= after.sent
    ensures Since(access, after) == Since(access, middle) + Since(middle, after)
  {
  }

  lemma UsableSplit(access: Access, middle: Access, after: Access, backend: Backend)
    requires access.sent <= middle.sent <= after.sent
    ensures Usable(Since(access, after), backend)
        == Usable(Since(access, middle), backend) + Usable(Since(middle, after), backend)
  {
    SinceSplit(access, middle, after);
    UsableConcat(Since(access, middle), Since(middle, after), backend);
  }

  /** The usable prompts ask for the items in order, each once: for all of them if the batch succeeds, and otherwise for
    * a proper prefix. */
  ghost predicate Covers(sent: seq<Sent>, items: seq<Item>, backend: Backend, success: bool) {
    Usable(sent, backend) <= items && (success <==> Usable(sent, backend) == items)
  }

  lemma TryCovers(access: Access, items: seq<Item>, backend: Backend)
    ensures var (tried, result) := Try(access, items, backend);
      access.sent <= tried.sent
      && Usable(Since(access, tried), backend) == if result.Translated? then items else []
  {
    hide ReplyResult;
    var (tried, result) := Try(access, items, backend);
    if tried.sent != access.sent {
      var one := Since(access, tried);
      assert |one| == 1 && one[1..] == [];
      assert Usable(one, backend) == if IsUsable(one[0], backend) then items else [];
    }
  }

  /** A batch succeeds exactly when its usable prompts cover all of its items, and otherwise they cover a proper prefix:
    * no item is translated twice, and none after one that was given up. */
  lemma {:induction false} TranslateCovers(access: Access, items: seq<Item>, tries: nat, lastError: string,
                                           backend: Backend)
    requires items != []
    ensures var (after, result) := Translate(access, items, tries, lastError, backend);
      access.sent <= after.sent && Covers(Since(access, after), items, backend, result.Translated?)
    decreases |items|, TRANSLATE_MAX_ATTEMPTS - tries
  {
    hide Try, IsPromptTimeout, Usable;
    if tries < TRANSLATE_MAX_ATTEMPTS {
      var (tried, result) := Try(access, items, backend);
      var (after, _) := Translate(access, items, tries, lastError, backend);
      TryCovers(access, items, backend);
      if result.Failed? && !IsPromptTimeout(result.message) {
        TranslateCovers(tried, items, tries + 1, result.message, backend);
        UsableSplit(access, tried, after, backend);
      } else if result.Failed? && |items| > 1 {
        HalvesCover(tried, items, backend);
        UsableSplit(access, tried, after, backend);
      }
    } else {
      NothingSent(access, backend);
    }
  }

  lemma {:induction false} HalvesCover(access: Access, items: seq<Item>, backend: Backend)
    requires |items| > 1
    ensures var (after, result) := Halves(access, items, backend);
      access.sent <= after.sent && Covers(Since(access, after), items, backend, result.Translated?)
    decreases |items|, 0
  {
    hide Translate, Usable;
    var first, second := items[..Midpoint(items)], items[Midpoint(items)..];
    assert items == first + second;
    TranslateCovers(access, first, 0, NO_ERROR, backend);
    var (middle, left) := Translate(access, first, 0, NO_ERROR, backend);
    if left.Translated? {
      TranslateCovers(middle, second, 0, NO_ERROR, backend);
      var (after, _) := Translate(middle, second, 0, NO_ERROR, backend);
      UsableSplit(access, middle, after, backend);
    }
  }

  // ----- the texts of the usable replies -----

  /** What a batch's translations are for its items, "" for none. */
  function ValuesOf(batch: seq<Item>, translated: map<string, string>): (values: seq<string>)
    ensures |values| == |batch|
  {
    seq(|batch|, i requires 0 <= i < |batch| => if batch[i].key in translated then translated[batch[i].key] else "")
  }

  /** The texts of the usable replies, in the order of the items they were asked for. */
  ghost function UsableTexts(sent: seq<Sent>, backend: Backend): (texts: seq<string>)
    ensures |texts| == |Usable(sent, backend)|
  {
    if sent == [] then []
    else
      var reply := backend(sent[0].attempt).reply;
      (if IsUsable(sent[0], backend) then ValuesOf(sent[0].items, reply.values) else [])
        + UsableTexts(sent[1..], backend)
  }

  lemma {:induction false} UsableTextsConcat(a: seq<Sent>, b: seq<Sent>, backend: Backend)
    ensures UsableTexts(a + b, backend) == UsableTexts(a, backend) + UsableTexts(b, backend)
  {
    hide IsUsable, ValuesOf;
    if a == [] {
      assert a + b == b;
    } else {
      UsableTextsConcat(a[1..], b, backend);
      assert (a + b)[1..] == a[1..] + b;
      AppendAssoc(UsableTexts(a, backend)[..|UsableTexts(a, backend)| - |UsableTexts(a[1..], backend)|],
                  UsableTexts(a[1..], backend), UsableTexts(b, backend));
    }
  }

  lemma UsableTextsSplit(access: Access, middle: Access, after: Access, backend: Backend)
    requires access.sent <= middle.sent <= after.sent
    ensures UsableTexts(Since(access, after), backend)
         == UsableTexts(Since(access, middle), backend) + UsableTexts(Since(middle, after), backend)
  {
    SinceSplit(access, middle, after);
    UsableTextsConcat(Since(access, middle), Since(middle, after), backend);
  }

  lemma TryTexts(access: Access, items: seq<Item>, backend: Backend)
    ensures var (tried, result) := Try(access, items, backend);
      access.sent <= tried.sent
      && UsableTexts(Since(access, tried), backend) == if result.Translated? then ValuesOf(items, result.values) else []
  {
    hide Collect;
    var (tried, result) := Try(access, items, backend);
    if tried.sent != access.sent {
      var one := Since(access, tried);
      assert |one| == 1 && one[1..] == [];
      if result.Translated? {
        var values := backend(access.attempts).reply.values;
        CollectKeys(items, values);
        assert forall i | 0 <= i < |items| :: items[i].key in Keys(items);
        assert ValuesOf(items, values) == ValuesOf(items, result.values);
      }
    }
  }

  /** Without repeated keys the texts of a batch are those of its usable replies, item by item. */
  lemma {:induction false} TranslateTexts(access: Access, items: seq<Item>, tries: nat, lastError: string,
                                          backend: Backend)
    requires items != [] && DistinctItems(items)
    ensures var (after, result) := Translate(access, items, tries, lastError, backend);
      access.sent <= after.sent
      && (result.Translated? ==> ValuesOf(items, result.values) == UsableTexts(Since(access, after), backend))
    decreases |items|, TRANSLATE_MAX_ATTEMPTS - tries
  {
    hide Try, IsPromptTimeout, UsableTexts, ValuesOf;
    if tries < TRANSLATE_MAX_ATTEMPTS {
      var (tried, result) := Try(access, items, backend);
      var (after, _) := Translate(access, items, tries, lastError, backend);
      TryTexts(access, items, backend);
      if result.Failed? && !IsPromptTimeout(result.message) {
        TranslateTexts(tried, items, tries + 1, result.message, backend);
        UsableTextsSplit(access, tried, after, backend);
      } else if result.Failed? && |items| > 1 {
        HalvesTexts(tried, items, backend);
        UsableTextsSplit(access, tried, after, backend);
      }
    }
  }

  lemma {:induction false} HalvesTexts(access: Access, items: seq<Item>, backend: Backend)
    requires |items| > 1 && DistinctItems(items)
    ensures var (after, result) := Halves(access, items, backend);
      access.sent <= after.sent
      && (result.Translated? ==> ValuesOf(items, result.values) == UsableTexts(Since(access, after), backend))
    decreases |items|, 0
  {
    hide Translate, UsableTexts, ValuesOf;
    var first, second := items[..Midpoint(items)], items[Midpoint(items)..];
    assert items == first + second;
    assert DistinctItems(first) && DistinctItems(second);
    TranslateTexts(access, first, 0, NO_ERROR, backend);
    TranslateAccounts(access, first, 0, NO_ERROR, backend);
    var (middle, left) := Translate(access, first, 0, NO_ERROR, backend);
    if left.Translated? {
      TranslateTexts(middle, second, 0, NO_ERROR, backend);
      TranslateAccounts(middle, second, 0, NO_ERROR, backend);
      var (after, right) := Translate(middle, second, 0, NO_ERROR, backend);
      UsableTextsSplit(access, middle, after, backend);
      if right.Translated? {
        ValuesOfHalves(first, second, left.values, right.values);
      }
    }
  }

  lemma ValuesOfHalves(first: seq<Item>, second: seq<Item>, left: map<string, string>, right: map<string, string>)
    requires DistinctItems(first + second) && left.Keys == Keys(first) && right.Keys == Keys(second)
    ensures ValuesOf(first + second, left + right) == ValuesOf(first, left) + ValuesOf(second, right)
  {
    var items := first + second;
    assert forall j | 0 <= j < |second| :: items[|first| + j] == second[j];
    forall i | 0 <= i < |items|
      ensures ValuesOf(items, left + right)[i] == (ValuesOf(first, left) + ValuesOf(second, right))[i]
    {
      if i < |first| {
        assert items[i] == first[i] && first[i].key in Keys(first);
        assert items[i].key !in Keys(second);
      } else {
        assert items[i] == second[i - |first|] && second[i - |first|].key in Keys(second);
      }
    }
  }

  // ----- the error of a failed batch -----

  /** Why the last attempt failed: no client, or no usable reply to the prompt it sent. */
  ghost function LastError(sent: seq<Sent>, attempts: nat, backend: Backend): Option<string>
    requires attempts > 0
  {
    var attempt := backend(attempts - 1);
    if sent == [] || sent[|sent| - 1].attempt != attempts - 1 then attempt.createError
    else
      match ReplyResult(sent[|sent| - 1].items, attempt.reply)
      case Failed(message) => Some(message)
      case Translated(_) => None
  }

  /** The log grows, by prompts of the attempts made meanwhile. */
  ghost predicate Grows(access: Access, after: Access) {
    && access.sent <= after.sent && access.attempts <= after.attempts
    && forall k | |access.sent| <= k < |after.sent| :: access.attempts <= after.sent[k].attempt < after.attempts
  }

  ghost predicate FailsWith(access: Access, after: Access, backend: Backend, message: string)
    requires access.sent <= after.sent
  {
    access.attempts < after.attempts && LastError(Since(access, after), after.attempts, backend) == Some(message)
  }

  lemma LastErrorSplit(access: Access, middle: Access, after: Access, backend: Backend, message: string)
    requires Grows(access, middle) && Grows(middle, after) && FailsWith(middle, after, backend, message)
    ensures Grows(access, after) && FailsWith(access, after, backend, message)
  {
    hide ReplyResult;
    SinceSplit(access, middle, after);
    var sent := Since(access, after);
    if Since(middle, after) == [] && sent != [] {
      assert sent[|sent| - 1] == middle.sent[|middle.sent| - 1];
    }
  }

  lemma TryFails(access: Access, items: seq<Item>, backend: Backend)
    ensures var (tried, result) := Try(access, items, backend);
      Grows(access, tried) && (result.Failed? ==> FailsWith(access, tried, backend, result.message))
  {
    hide ReplyResult;
  }

  /** A batch that is given up fails with the error of its last attempt. */
  lemma {:induction false} TranslateFails(access: Access, items: seq<Item>, tries: nat, lastError: string,
                                          backend: Backend)
    requires tries < TRANSLATE_MAX_ATTEMPTS
    ensures var (after, result) := Translate(access, items, tries, lastError, backend);
      Grows(access, after) && (result.Failed? ==> FailsWith(access, after, backend, result.message))
    decreases |items|, TRANSLATE_MAX_ATTEMPTS - tries
  {
    hide Try, IsPromptTimeout, FailsWith, LastError;
    var (tried, result) := Try(access, items, backend);
    var (after, final) := Translate(access, items, tries, lastError, backend);
    TryFails(access, items, backend);
    if result.Failed? && !IsPromptTimeout(result.message) {
      if tries + 1 < TRANSLATE_MAX_ATTEMPTS {
        TranslateFails(tried, items, tries + 1, result.message, backend);
        if final.Failed? {
          LastErrorSplit(access, tried, after, backend, final.message);
        }
      }
    } else if result.Failed? && |items| > 1 {
      HalvesFail(tried, items, backend);
      if final.Failed? {
        LastErrorSplit(access, tried, after, backend, final.message);
      }
    }
  }

  lemma {:induction false} HalvesFail(access: Access, items: seq<Item>, backend: Backend)
    requires |items| > 1
    ensures var (after, result) := Halves(access, items, backend);
      Grows(access, after) && (result.Failed? ==> FailsWith(access, after, backend, result.message))
    decreases |items|, 0
  {
    hide Translate, FailsWith, LastError;
    var first, second := items[..Midpoint(items)], items[Midpoint(items)..];
    TranslateFails(access, first, 0, NO_ERROR, backend);
    var (middle, left) := Translate(access, first, 0, NO_ERROR, backend);
    if left.Translated? {
      TranslateFails(middle, second, 0, NO_ERROR, backend);
      var (after, right) := Translate(middle, second, 0, NO_ERROR, backend);
      if right.Failed? {
        LastErrorSplit(access, middle, after, backend, right.message);
      }
    }
  }

  // ----- every client fails at most once -----

  /** Over one client every prompt but the last one succeeded, and a client still in use never failed. */
  ghost predicate FailsOnce(access: Access) {
    && (forall k | 0 <= k < |access.sent| :: access.sent[k].client < access.created)
    && (forall j, k | 0 <= j < k < |access.sent| && access.sent[j].client == access.sent[k].client :: access.sent[j].ok)
    && (access.client.Some? ==>
          && access.client.value < access.created
          && forall k | 0 <= k < |access.sent| && access.sent[k].client == access.client.value :: access.sent[k].ok)
  }

  lemma {:induction false} TranslateDiscards(access: Access, items: seq<Item>, tries: nat, lastError: string,
                                             backend: Backend)
    requires FailsOnce(access)
    ensures FailsOnce(Translate(access, items, tries, lastError, backend).0)
    decreases |items|, TRANSLATE_MAX_ATTEMPTS - tries
  {
    if tries < TRANSLATE_MAX_ATTEMPTS {
      var (tried, result) := Try(access, items, backend);
      assert FailsOnce(tried);
      if result.Failed? && !IsPromptTimeout(result.message) {
        TranslateDiscards(tried, items, tries + 1, result.message, backend);
      } else if result.Failed? && |items| > 1 {
        var midpoint := Midpoint(items);
        TranslateDiscards(tried, items[..midpoint], 0, NO_ERROR, backend);
        var (middle, left) := Translate(tried, items[..midpoint], 0, NO_ERROR, backend);
        TranslateDiscards(middle, items[midpoint..], 0, NO_ERROR, backend);
      }
    }
  }
}
