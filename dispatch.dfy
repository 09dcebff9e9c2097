/**
 * The `interactionCreate` listener: a one-slot deduplication on the
 * interaction id, then a scan over the registry of interaction handlers. Every
 * key that is a whole-segment prefix of the custom id fires; its handlers run
 * one after another with the rest of the custom id as arguments. There is no
 * try/catch: a handler whose promise rejects ends the listener, and the
 * handlers after it are not called for that interaction.
 */
module Dispatch {
  import opened Wrappers
  import opened Strings
  import Meta

  type Label = Meta.HandlerLabel

  /** One `[cid, handlers]` pair of `Object.entries(registeredHandlers.interaction)`. */
  datatype Entry = Entry(key: string, handlers: seq<Label>)

  /** One call `handler(interaction, ...args)`. */
  datatype Invocation = Invocation(handler: Label, args: seq<string>)

  /**
   * An inbound interaction: its id, its custom id (absent for slash commands)
   * and the handlers whose promise rejects while handling it.
   */
  datatype Event = Event(id: string, customId: Option<string>, rejecting: set<Label>)

  /**
   * The handler arguments for a matching key: the whole id split on `:` for the
   * empty key, `[""]` for an exact match, otherwise what follows `cid + ":"`
   * split on `:`, with empty segments kept.
   */
  function Args(id: string, cid: string): (args: seq<string>)
    ensures |args| >= 1
    ensures forall k :: 0 <= k < |args| ==> ':' !in args[k]
    ensures cid == "" ==> Join(args, ':') == id
    ensures cid != "" && id == cid ==> args == [""]
    ensures cid != "" && id != cid && Meta.IsSegmentPrefix(cid, id) ==> id == cid + ":" + Join(args, ':')
  {
    var remaining := if cid == "" then id else if id == cid then "" else SliceFrom(id, |cid| + 1);
    JoinSplit(remaining, ':');
    Split(remaining, ':')
  }

  /** The empty key matches only the empty id and ids that begin with `:`. */
  lemma EmptyKeyMatches(id: string)
    ensures Meta.IsSegmentPrefix("", id) <==> id == "" || id[0] == ':'
  {
    if id != "" && id[0] == ':' {
      assert ":" <= id;
    }
  }

  /**
   * The dispatcher keeps empty segments where `remainingId` drops them; with
   * the empty ones removed, its arguments are exactly the remaining id.
   */
  lemma ArgsAgreeWithRemainingId(id: string, cid: string)
    requires Meta.IsSegmentPrefix(cid, id)
    ensures FilterNonEmpty(Args(id, cid)) == Meta.RemainingId(id, Some(cid), None)
  {
    assert Meta.PrefixedId(Some(cid), None) == cid;
    if cid == "" {
      if id != "" {
        var rest := id[1..];
        assert id == "" + [':'] + rest;
        SplitConcat("", rest, ':');
        var parts := Split(id, ':');
        assert parts == [""] + Split(rest, ':');
        assert parts[1..] == Split(rest, ':');
        assert SliceFrom(id, 1) == rest;
      }
    }
  }

  /** The calls of one matching key: each of its handlers, in list order, with the same arguments. */
  function Calls(handlers: seq<Label>, args: seq<string>): seq<Invocation>
  {
    if handlers == [] then []
    else Calls(handlers[..|handlers| - 1], args) + [Invocation(handlers[|handlers| - 1], args)]
  }

  lemma {:induction false} CallsAt(handlers: seq<Label>, args: seq<string>, m: nat)
    requires m < |handlers|
    ensures |Calls(handlers, args)| == |handlers|
    ensures Calls(handlers, args)[m] == Invocation(handlers[m], args)
    decreases |handlers|
  {
    var init := handlers[..|handlers| - 1];
    CallsLength(init, args);
    if m < |handlers| - 1 {
      CallsAt(init, args, m);
    }
  }

  lemma {:induction false} CallsLength(handlers: seq<Label>, args: seq<string>)
    ensures |Calls(handlers, args)| == |handlers|
    decreases |handlers|
  {
    if handlers != [] {
      CallsLength(handlers[..|handlers| - 1], args);
    }
  }

  lemma CallsSnoc(handlers: seq<Label>, args: seq<string>, k: nat)
    requires k < |handlers|
    ensures Calls(handlers[..k + 1], args) == Calls(handlers[..k], args) + [Invocation(handlers[k], args)]
  {
    assert handlers[..k + 1][..k] == handlers[..k];
  }

  lemma {:induction false} CallsAppend(a: seq<Label>, b: seq<Label>, args: seq<string>)
    ensures Calls(a + b, args) == Calls(a, args) + Calls(b, args)
    decreases |b|
  {
    if b == [] {
      assert a + b == a;
    } else {
      var init := b[..|b| - 1];
      assert (a + b)[..|a + b| - 1] == a + init;
      CallsAppend(a, init, args);
    }
  }

  /** The calls one registry entry contributes for a custom id. */
  function EntryCalls(e: Entry, id: string): seq<Invocation>
  {
    if Meta.IsSegmentPrefix(e.key, id) then Calls(e.handlers, Args(id, e.key)) else []
  }

  /** Every call the scan makes when no handler rejects, in registry order. */
  function Invocations(registry: seq<Entry>, id: string): seq<Invocation>
  {
    if registry == [] then []
    else Invocations(registry[..|registry| - 1], id) + EntryCalls(registry[|registry| - 1], id)
  }

  /** The scan over one more entry adds that entry's calls. */
  lemma InvocationsStep(registry: seq<Entry>, i: nat, id: string)
    requires i < |registry|
    ensures Invocations(registry[..i + 1], id) == Invocations(registry[..i], id) + EntryCalls(registry[i], id)
  {
    assert registry[..i + 1][..i] == registry[..i];
  }

  /**
   * Each call the scan makes belongs to a key that matches the id: its handler
   * is in that key's list and its arguments are that key's arguments.
   */
  lemma {:induction false} InvocationsSound(registry: seq<Entry>, id: string, k: nat)
    requires k < |Invocations(registry, id)|
    ensures exists j :: (0 <= j < |registry| && Meta.IsSegmentPrefix(registry[j].key, id)
      && Invocations(registry, id)[k].handler in registry[j].handlers
      && Invocations(registry, id)[k].args == Args(id, registry[j].key))
    decreases |registry|
  {
    var init := registry[..|registry| - 1];
    var j := |registry| - 1;
    var calls := Invocations(registry, id);
    if k < |Invocations(init, id)| {
      InvocationsSound(init, id, k);
      var j' :| 0 <= j' < |init| && Meta.IsSegmentPrefix(init[j'].key, id)
        && Invocations(init, id)[k].handler in init[j'].handlers
        && Invocations(init, id)[k].args == Args(id, init[j'].key);
      assert calls[k] == Invocations(init, id)[k];
      assert init[j'] == registry[j'];
    } else {
      var m := k - |Invocations(init, id)|;
      assert calls[k] == EntryCalls(registry[j], id)[m];
      assert Meta.IsSegmentPrefix(registry[j].key, id);
      CallsLength(registry[j].handlers, Args(id, registry[j].key));
      CallsAt(registry[j].handlers, Args(id, registry[j].key), m);
      assert calls[k].handler == registry[j].handlers[m];
    }
  }

  /** Scanning a registry in two parts makes the calls of the first part, then of the second. */
  lemma {:induction false} InvocationsAppend(r1: seq<Entry>, r2: seq<Entry>, id: string)
    ensures Invocations(r1 + r2, id) == Invocations(r1, id) + Invocations(r2, id)
    decreases |r2|
  {
    if r2 != [] {
      var init := r2[..|r2| - 1];
      assert (r1 + r2)[..|r1 + r2| - 1] == r1 + init;
      InvocationsAppend(r1, init, id);
    } else {
      assert r1 + r2 == r1;
    }
  }

  /**
   * Every matching key fires: all of its handlers are called, in list order,
   * after the calls of the keys before it and before those of the keys after it.
   */
  lemma MatchingKeyFires(registry: seq<Entry>, id: string, j: nat)
    requires j < |registry| && Meta.IsSegmentPrefix(registry[j].key, id)
    ensures Invocations(registry, id) ==
      Invocations(registry[..j], id)
      + Calls(registry[j].handlers, Args(id, registry[j].key))
      + Invocations(registry[j + 1..], id)
  {
    assert registry == registry[..j] + [registry[j]] + registry[j + 1..];
    InvocationsAppend(registry[..j] + [registry[j]], registry[j + 1..], id);
    InvocationsAppend(registry[..j], [registry[j]], id);
    assert [registry[j]][..0] == [];
  }

  /** An id that no key matches makes no call. */
  lemma NoMatchNoCall(registry: seq<Entry>, id: string)
    requires forall j :: 0 <= j < |registry| ==> !Meta.IsSegmentPrefix(registry[j].key, id)
    ensures Invocations(registry, id) == []
  {
    if Invocations(registry, id) != [] {
      InvocationsSound(registry, id, 0);
    }
  }

  predicate NoneRejects(calls: seq<Invocation>, rejecting: set<Label>) {
    forall k :: 0 <= k < |calls| ==> calls[k].handler !in rejecting
  }

  lemma NoneRejectsConcat(a: seq<Invocation>, b: seq<Invocation>, rejecting: set<Label>)
    ensures NoneRejects(a + b, rejecting) <==> NoneRejects(a, rejecting) && NoneRejects(b, rejecting)
  {
    if NoneRejects(a, rejecting) && NoneRejects(b, rejecting) {
      forall k | 0 <= k < |a + b| ensures (a + b)[k].handler !in rejecting {
        if k >= |a| { assert (a + b)[k] == b[k - |a|]; }
      }
    }
    if NoneRejects(a + b, rejecting) {
      forall k | 0 <= k < |a| ensures a[k].handler !in rejecting {
        assert (a + b)[k] == a[k];
      }
      forall k | 0 <= k < |b| ensures b[k].handler !in rejecting {
        assert (a + b)[|a| + k] == b[k];
      }
    }
  }

  /** Concatenation regrouped; stated on its own so that callers need not unfold anything. */
  lemma Assoc<T>(a: seq<T>, b: seq<T>, c: seq<T>)
    ensures (a + b) + c == a + (b + c)
  {
  }

  /**
   * The calls that actually happen: the planned calls up to and including the
   * first one whose handler rejects; all of them when none rejects.
   */
  function RunUntilRejected(calls: seq<Invocation>, rejecting: set<Label>): seq<Invocation>
  {
    if calls == [] then []
    else if calls[0].handler in rejecting then [calls[0]]
    else [calls[0]] + RunUntilRejected(calls[1..], rejecting)
  }

  /**
   * What runs is a prefix of the planned calls in which only the last call may
   * reject, and it is cut short only by a rejecting call.
   */
  lemma {:induction false} RunIsRejectionFreePrefix(calls: seq<Invocation>, rejecting: set<Label>)
    ensures var run := RunUntilRejected(calls, rejecting);
      |run| <= |calls| && run == calls[..|run|] &&
      (forall k :: 0 <= k < |run| - 1 ==> run[k].handler !in rejecting) &&
      (|run| < |calls| ==> |run| >= 1 && run[|run| - 1].handler in rejecting)
    decreases |calls|
  {
    if calls != [] && calls[0].handler !in rejecting {
      var rest := RunUntilRejected(calls[1..], rejecting);
      RunIsRejectionFreePrefix(calls[1..], rejecting);
      var run := [calls[0]] + rest;
      assert calls[1..][..|rest|] == calls[1..|rest| + 1];
      assert run == calls[..|run|];
      assert forall k :: 1 <= k < |run| ==> run[k] == rest[k - 1];
    }
  }

  /** When no handler rejects, every planned call runs. */
  lemma {:induction false} RunWithoutRejection(calls: seq<Invocation>, rejecting: set<Label>)
    requires NoneRejects(calls, rejecting)
    ensures RunUntilRejected(calls, rejecting) == calls
    decreases |calls|
  {
    if calls != [] {
      assert calls[0].handler !in rejecting;
      RunWithoutRejection(calls[1..], rejecting);
      assert calls == [calls[0]] + calls[1..];
    }
  }

  /** Calls that do not reject are passed through and the run continues after them. */
  lemma {:induction false} RunAfterClean(a: seq<Invocation>, b: seq<Invocation>, rejecting: set<Label>)
    requires NoneRejects(a, rejecting)
    ensures RunUntilRejected(a + b, rejecting) == a + RunUntilRejected(b, rejecting)
    decreases |a|
  {
    if a != [] {
      assert a[0].handler !in rejecting;
      assert (a + b)[0] == a[0];
      assert (a + b)[1..] == a[1..] + b;
      assert NoneRejects(a[1..], rejecting) by {
        forall k | 0 <= k < |a[1..]| ensures a[1..][k].handler !in rejecting {
          assert a[1..][k] == a[k + 1];
        }
      }
      RunAfterClean(a[1..], b, rejecting);
      assert RunUntilRejected(a + b, rejecting) == [a[0]] + (a[1..] + RunUntilRejected(b, rejecting));
      assert a == [a[0]] + a[1..];
    } else {
      assert a + b == b;
    }
  }

  /** Once a call has rejected, whatever was planned after the calls holding it never runs. */
  lemma {:induction false} RunStopsWithin(a: seq<Invocation>, b: seq<Invocation>, rejecting: set<Label>)
    requires !NoneRejects(a, rejecting)
    ensures RunUntilRejected(a + b, rejecting) == RunUntilRejected(a, rejecting)
    decreases |a|
  {
    assert a != [];
    assert (a + b)[0] == a[0];
    if a[0].handler !in rejecting {
      assert (a + b)[1..] == a[1..] + b;
      var k :| 0 <= k < |a| && a[k].handler in rejecting;
      assert a[1..][k - 1] == a[k];
      RunStopsWithin(a[1..], b, rejecting);
    }
  }

  /** What one fresh (non-duplicate) interaction makes happen. */
  function Handle(registry: seq<Entry>, e: Event): seq<Invocation>
  {
    RunUntilRejected(Invocations(registry, e.customId.GetOr("")), e.rejecting)
  }

  /**
   * When a handler of the `i`-th entry is the first to reject, what happens is
   * every call of the entries before it and that entry's calls up to the
   * rejecting one; the later entries are never reached.
   */
  lemma RejectionEndsScan(registry: seq<Entry>, id: string, i: nat, rejecting: set<Label>)
    requires i < |registry|
    requires NoneRejects(Invocations(registry[..i], id), rejecting)
    requires !NoneRejects(EntryCalls(registry[i], id), rejecting)
    ensures RunUntilRejected(Invocations(registry, id), rejecting) ==
      Invocations(registry[..i], id) + RunUntilRejected(EntryCalls(registry[i], id), rejecting)
  {
    var done, here, later := Invocations(registry[..i], id), EntryCalls(registry[i], id), Invocations(registry[i + 1..], id);
    assert registry == registry[..i + 1] + registry[i + 1..];
    InvocationsAppend(registry[..i + 1], registry[i + 1..], id);
    InvocationsStep(registry, i, id);
    Assoc(done, here, later);
    RunAfterClean(done, here + later, rejecting);
    RunStopsWithin(here, later, rejecting);
  }

  /**
   * `for (const handler of handlers) await handler(interaction, ...args)`: the
   * handlers of one matching entry are awaited in order; a rejection ends the
   * loop and is reported to the caller.
   */
  method FireHandlers(handlers: seq<Label>, args: seq<string>, rejecting: set<Label>)
      returns (fired: seq<Invocation>, rejected: bool)
    ensures fired == RunUntilRejected(Calls(handlers, args), rejecting)
    ensures rejected <==> !NoneRejects(Calls(handlers, args), rejecting)
  {
    fired := [];
    for k := 0 to |handlers|
      invariant fired == Calls(handlers[..k], args)
      invariant NoneRejects(fired, rejecting)
    {
      var x := Invocation(handlers[k], args);
      CallsSnoc(handlers, args, k);
      if handlers[k] in rejecting {
        assert handlers == handlers[..k + 1] + handlers[k + 1..];
        CallsAppend(handlers[..k + 1], handlers[k + 1..], args);
        var rest := Calls(handlers[k + 1..], args);
        assert Calls(handlers, args) == fired + ([x] + rest);
        assert Calls(handlers, args)[|fired|] == x;
        RunAfterClean(fired, [x] + rest, rejecting);
        assert ([x] + rest)[0] == x;
        fired, rejected := fired + [x], true;
        return;
      }
      NoneRejectsConcat(fired, [x], rejecting);
      fired := fired + [x];
    }
    assert handlers[..|handlers|] == handlers;
    RunWithoutRejection(fired, rejecting);
    rejected := false;
  }

  /** The listener's state: the registry it reads, `lastProcessed`, and the calls made so far. */
  class Dispatcher {
    const registry: seq<Entry>
    var lastProcessed: Option<string>
    var trace: seq<Invocation>

    constructor (registry: seq<Entry>)
      ensures this.registry == registry && lastProcessed == None && trace == []
    {
      this.registry := registry;
      lastProcessed := None;
      trace := [];
    }

    /**
     * `client.on("interactionCreate", ...)`. An interaction whose id is the last
     * processed one does nothing; any other is recorded as processed before any
     * handler runs, whether or not a key matches.
     */
    method OnInteractionCreate(e: Event)
      modifies this
      ensures old(lastProcessed) == Some(e.id) ==> lastProcessed == old(lastProcessed) && trace == old(trace)
      ensures old(lastProcessed) != Some(e.id) ==> lastProcessed == Some(e.id) && trace == old(trace) + Handle(registry, e)
    {
      if lastProcessed == Some(e.id) {
        return;
      }
      lastProcessed := Some(e.id);
      var id := e.customId.GetOr("");
      for i := 0 to |registry|
        invariant lastProcessed == Some(e.id)
        invariant trace == old(trace) + Invocations(registry[..i], id)
        invariant NoneRejects(Invocations(registry[..i], id), e.rejecting)
      {
        ghost var done := Invocations(registry[..i], id);
        InvocationsStep(registry, i, id);
        var cid, handlers := registry[i].key, registry[i].handlers;
        if Meta.IsSegmentPrefix(cid, id) {
          var fired, rejected := FireHandlers(handlers, Args(id, cid), e.rejecting);
          if rejected {
            // the awaited handler rejects: the listener ends here
            RejectionEndsScan(registry, id, i, e.rejecting);
            Assoc(old(trace), done, fired);
            trace := trace + fired;
            return;
          }
          RunWithoutRejection(EntryCalls(registry[i], id), e.rejecting);
          NoneRejectsConcat(done, fired, e.rejecting);
          Assoc(old(trace), done, fired);
          trace := trace + fired;
        } else {
          assert done + [] == done;
        }
      }
      assert registry[..|registry|] == registry;
      RunWithoutRejection(Invocations(registry, id), e.rejecting);
    }
  }

  // ---------------------------------------------------------------------------
  // A stream of interactions

  /**
   * The calls a stream of interactions makes, starting from a `lastProcessed`
   * slot: an interaction is skipped exactly when its id equals the one before.
   */
  function Deliver(registry: seq<Entry>, last: Option<string>, events: seq<Event>): seq<Invocation>
    decreases |events|
  {
    if events == [] then []
    else
      var e := events[0];
      (if last == Some(e.id) then [] else Handle(registry, e)) + Deliver(registry, Some(e.id), events[1..])
  }

  /** Feeding a stream of interactions to a fresh listener makes exactly the calls `Deliver` describes. */
  method ReplayEvents(registry: seq<Entry>, events: seq<Event>) returns (trace: seq<Invocation>)
    ensures trace == Deliver(registry, None, events)
  {
    var d := new Dispatcher(registry);
    for i := 0 to |events|
      invariant d.registry == registry
      invariant d.trace + Deliver(registry, d.lastProcessed, events[i..]) == Deliver(registry, None, events)
    {
      var e := events[i];
      ghost var last, before := d.lastProcessed, d.trace;
      ghost var step := if last == Some(e.id) then [] else Handle(registry, e);
      assert events[i..] == [e] + events[i + 1..];
      assert Deliver(registry, last, events[i..]) == step + Deliver(registry, Some(e.id), events[i + 1..]);
      d.OnInteractionCreate(e);
      Assoc(before, step, Deliver(registry, Some(e.id), events[i + 1..]));
      assert d.lastProcessed == Some(e.id) && d.trace == before + step;
    }
    trace := d.trace;
  }

  /** Redelivering an interaction right after itself calls its handlers once. */
  lemma ImmediateDuplicateSuppressed(registry: seq<Entry>, first: Event, again: Event)
    requires again.id == first.id
    ensures Deliver(registry, None, [first, again]) == Handle(registry, first)
  {
    assert [first, again][1..] == [again];
    assert Deliver(registry, Some(first.id), [again]) == [];
  }

  /** Only the latest id is remembered: A, B, A handles A twice. */
  lemma NonAdjacentRedeliveryRuns(registry: seq<Entry>, a: Event, b: Event)
    requires a.id != b.id
    ensures Deliver(registry, None, [a, b, a]) == Handle(registry, a) + Handle(registry, b) + Handle(registry, a)
  {
    assert [a, b, a][1..] == [b, a];
    assert [b, a][1..] == [a];
    assert Deliver(registry, Some(b.id), [a]) == Handle(registry, a);
    assert Deliver(registry, Some(a.id), [b, a]) == Handle(registry, b) + Handle(registry, a);
  }

  /** Two interactions with different ids and the same custom id are both handled. */
  lemma DistinctIdsBothHandled(registry: seq<Entry>, a: Event, b: Event)
    requires a.id != b.id && a.customId == b.customId && a.rejecting == b.rejecting
    ensures Deliver(registry, None, [a, b]) == Handle(registry, a) + Handle(registry, a)
  {
    assert [a, b][1..] == [b];
    assert Deliver(registry, Some(a.id), [b]) == Handle(registry, b);
  }

  // ---------------------------------------------------------------------------
  // Moderation-log buttons

  /** The reason the moderation log's kick and ban buttons carry. */
  const ModLogReason := "Unangebrachte Nachricht"

  /** The moderation log's delete button: `messages:delete:<channelId>:<messageId>`. */
  function MessageDeleteId(channelId: string, messageId: string): string {
    "messages:delete" + ":" + channelId + ":" + messageId
  }

  /** The moderation log's kick button: `members:kick:<authorId>:Unangebrachte Nachricht`. */
  function MemberKickId(authorId: string): string {
    "members:kick" + ":" + authorId + ":" + ModLogReason
  }

  /** The moderation log's ban button: `members:ban:<authorId>:Unangebrachte Nachricht`. */
  function MemberBanId(authorId: string): string {
    "members:ban" + ":" + authorId + ":" + ModLogReason
  }

  /**
   * An id built from a key, a colon and `:`-free arguments joined by `:`
   * matches that key and hands the handler exactly those arguments.
   */
  lemma ArgsOfBuiltId(key: string, args: seq<string>, id: string)
    requires key != "" && |args| >= 1
    requires forall k :: 0 <= k < |args| ==> ':' !in args[k]
    requires id == key + ":" + Join(args, ':')
    ensures Meta.IsSegmentPrefix(key, id)
    ensures Args(id, key) == args
  {
    var joined := Join(args, ':');
    assert key + ":" <= id;
    assert SliceFrom(id, |key| + 1) == joined by {
      assert id[|key| + 1..] == joined;
    }
    SplitJoin(args, ':');
  }

  /** An id `key:a:b` with `:`-free `a` and `b` matches `key` and carries the arguments `[a, b]`. */
  lemma PairRouting(key: string, a: string, b: string)
    requires key != "" && ':' !in a && ':' !in b
    ensures Meta.IsSegmentPrefix(key, key + ":" + a + ":" + b)
    ensures Args(key + ":" + a + ":" + b, key) == [a, b]
  {
    assert Join([a, b], ':') == a + ":" + b by {
      assert [a, b][1..] == [b];
    }
    ArgsOfBuiltId(key, [a, b], key + ":" + a + ":" + b);
  }

  /** Two strings that differ at a position inside both do not match as key and id. */
  lemma DifferAt(key: string, id: string, k: nat)
    requires k < |key| && k < |id| && key[k] != id[k]
    ensures !Meta.IsSegmentPrefix(key, id)
  {
    assert (key + ":")[k] == key[k];
  }

  /**
   * The delete button routes to `messages:delete` with `[channelId, messageId]`,
   * and to the namespace key `messages` with `["delete", channelId, messageId]`.
   */
  lemma MessageDeleteRouting(channelId: string, messageId: string)
    requires ':' !in channelId && ':' !in messageId
    ensures Meta.IsSegmentPrefix("messages:delete", MessageDeleteId(channelId, messageId))
    ensures Args(MessageDeleteId(channelId, messageId), "messages:delete") == [channelId, messageId]
    ensures Meta.IsSegmentPrefix("messages", MessageDeleteId(channelId, messageId))
    ensures Args(MessageDeleteId(channelId, messageId), "messages") == ["delete", channelId, messageId]
  {
    PairRouting("messages:delete", channelId, messageId);
    NamespaceRouting(channelId, messageId);
  }

  /** The delete button seen from the `messages` namespace key: the action comes first among the arguments. */
  lemma NamespaceRouting(channelId: string, messageId: string)
    requires ':' !in channelId && ':' !in messageId
    ensures Meta.IsSegmentPrefix("messages", MessageDeleteId(channelId, messageId))
    ensures Args(MessageDeleteId(channelId, messageId), "messages") == ["delete", channelId, messageId]
  {
    var args := ["delete", channelId, messageId];
    var rest := channelId + ":" + messageId;
    assert Join(args, ':') == "delete" + ":" + rest by {
      assert args[1..] == [channelId, messageId];
      assert Join([channelId, messageId], ':') == rest by {
        assert [channelId, messageId][1..] == [messageId];
      }
    }
    assert MessageDeleteId(channelId, messageId) == "messages" + ":" + ("delete" + ":" + rest) by {
      assert "messages:delete" == "messages" + ":" + "delete";
    }
    assert ':' !in args[0];
    ArgsOfBuiltId("messages", args, MessageDeleteId(channelId, messageId));
  }

  /** The kick button routes to `members:kick` with `[authorId, reason]` and never to `members:ban`. */
  lemma MemberKickRouting(authorId: string)
    requires ':' !in authorId
    ensures Meta.IsSegmentPrefix("members:kick", MemberKickId(authorId))
    ensures Args(MemberKickId(authorId), "members:kick") == [authorId, ModLogReason]
    ensures !Meta.IsSegmentPrefix("members:ban", MemberKickId(authorId))
  {
    var id := MemberKickId(authorId);
    assert Meta.IsSegmentPrefix("members:kick", id) && Args(id, "members:kick") == [authorId, ModLogReason] by {
      assert ':' !in ModLogReason;
      PairRouting("members:kick", authorId, ModLogReason);
    }
    assert !Meta.IsSegmentPrefix("members:ban", id) by {
      assert id[8] == 'k';
      DifferAt("members:ban", id, 8);
    }
  }

  /** The ban button routes to `members:ban` with `[authorId, reason]` and never to `members:kick`. */
  lemma MemberBanRouting(authorId: string)
    requires ':' !in authorId
    ensures Meta.IsSegmentPrefix("members:ban", MemberBanId(authorId))
    ensures Args(MemberBanId(authorId), "members:ban") == [authorId, ModLogReason]
    ensures !Meta.IsSegmentPrefix("members:kick", MemberBanId(authorId))
  {
    var id := MemberBanId(authorId);
    assert Meta.IsSegmentPrefix("members:ban", id) && Args(id, "members:ban") == [authorId, ModLogReason] by {
      assert ':' !in ModLogReason;
      PairRouting("members:ban", authorId, ModLogReason);
    }
    assert !Meta.IsSegmentPrefix("members:kick", id) by {
      assert id[8] == 'b';
      DifferAt("members:kick", id, 8);
    }
  }
}
