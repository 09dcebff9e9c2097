/**
 * The support-ticket workflow of the `support` handler class: ticket
 * creation behind two quota gates, the ticket channel's name, closing,
 * taking over and assigning a ticket, the buttons shown under a ticket, and
 * the decisions of the commands that edit the "open a ticket" message.
 *
 * The ticket table is a sequence in insertion order; the database assigns
 * ids 1, 2, 3, ... so the ticket with id `n` sits at index `n - 1`.
 * Discord ids of users, guilds, roles and channels are strings.
 */
module Support {
  import opened Wrappers
  import opened Strings
  import opened Components
  import Meta
  import Dispatch

  /** `personalLimit` */
  const PersonalLimit: nat := 2
  /** `serverLimit` */
  const ServerLimit: nat := 25

  datatype Status = Open | Closed

  /** A `SupportTicket` row; `closedAt` is an opaque time stamp. */
  datatype Ticket = Ticket(
    id: nat,
    guild: string,
    author: string,
    assignee: Option<string>,
    title: string,
    description: Option<string>,
    status: Status,
    channelId: Option<string>,
    closedAt: Option<int>)

  /** Ids count up from 1 in insertion order, and a ticket carries a close time exactly when it is closed. */
  ghost predicate WellFormed(ts: seq<Ticket>) {
    forall i :: 0 <= i < |ts| ==> ts[i].id == i + 1 && (ts[i].status == Closed <==> ts[i].closedAt.Some?)
  }

  // ---------------------------------------------------------------------------
  // Counting open tickets: `repo.countBy({ ..., status: "open" })`

  /** Whose open tickets are counted: one author's (over all guilds) or one guild's. */
  datatype Scope = ByAuthor(author: string) | InGuild(guild: string)

  predicate Counts(t: Ticket, scope: Scope) {
    t.status == Open &&
    match scope
    case ByAuthor(a) => t.author == a
    case InGuild(g) => t.guild == g
  }

  function OpenCount(ts: seq<Ticket>, scope: Scope): (n: nat)
    ensures n <= |ts|
  {
    if ts == [] then 0
    else OpenCount(ts[..|ts| - 1], scope) + (if Counts(ts[|ts| - 1], scope) then 1 else 0)
  }

  /** A new row adds one to the counts it falls under and leaves the others. */
  lemma OpenCountSnoc(ts: seq<Ticket>, t: Ticket, scope: Scope)
    ensures OpenCount(ts + [t], scope) == OpenCount(ts, scope) + (if Counts(t, scope) then 1 else 0)
  {
    assert (ts + [t])[..|ts|] == ts;
  }

  /** Replacing one row changes a count only by what that row contributes before and after. */
  lemma {:induction false} OpenCountUpdate(ts: seq<Ticket>, i: nat, t: Ticket, scope: Scope)
    requires i < |ts|
    ensures OpenCount(ts[i := t], scope) + (if Counts(ts[i], scope) then 1 else 0) ==
            OpenCount(ts, scope) + (if Counts(t, scope) then 1 else 0)
    decreases |ts|
  {
    var last := |ts| - 1;
    assert ts[i := t][..last] == if i == last then ts[..last] else ts[..last][i := t];
    if i < last {
      OpenCountUpdate(ts[..last], i, t, scope);
    }
  }

  // ---------------------------------------------------------------------------
  // Creation

  datatype Admission = Admitted | TooManyPersonal | TooManyOnServer

  /**
   * The gates of `onCreateSupportTicketSubmit`: the author's own open tickets
   * are checked first, the guild's second, both with a strict `>`;
   * moderators pass both.
   */
  function Admit(personalOpen: nat, serverOpen: nat, isMod: bool): (a: Admission)
    ensures a == TooManyPersonal <==> !isMod && personalOpen > PersonalLimit
    ensures a == TooManyOnServer <==> !isMod && personalOpen <= PersonalLimit && serverOpen > ServerLimit
    ensures a == Admitted <==> isMod || (personalOpen <= PersonalLimit && serverOpen <= ServerLimit)
  {
    if personalOpen > PersonalLimit && !isMod then TooManyPersonal
    else if serverOpen > ServerLimit && !isMod then TooManyOnServer
    else Admitted
  }

  /**
   * Because the gates compare with `>`, an author with exactly two open
   * tickets may open a third, and a guild with exactly 25 a 26th.
   */
  lemma AdmitAtTheLimits(serverOpen: nat)
    ensures Admit(PersonalLimit, ServerLimit, false) == Admitted
    ensures Admit(PersonalLimit + 1, serverOpen, false) == TooManyPersonal
    ensures Admit(0, ServerLimit + 1, false) == TooManyOnServer
    ensures Admit(PersonalLimit + 1, ServerLimit + 1, true) == Admitted
  {
  }

  /**
   * The quota a non-moderator's admitted creation respects: afterwards the
   * author has at most `PersonalLimit + 1` open tickets and the guild at most
   * `ServerLimit + 1`.
   */
  lemma AdmittedCreationBound(ts: seq<Ticket>, t: Ticket)
    requires t.status == Open
    requires Admit(OpenCount(ts, ByAuthor(t.author)), OpenCount(ts, InGuild(t.guild)), false) == Admitted
    ensures OpenCount(ts + [t], ByAuthor(t.author)) <= PersonalLimit + 1
    ensures OpenCount(ts + [t], InGuild(t.guild)) <= ServerLimit + 1
  {
    OpenCountSnoc(ts, t, ByAuthor(t.author));
    OpenCountSnoc(ts, t, InGuild(t.guild));
  }

  /** `getTextInputValue("description") || null`: an empty description is stored as absent. */
  function StoredDescription(input: string): (d: Option<string>)
    ensures d.None? <==> input == ""
    ensures d.Some? ==> d.value == input
  {
    if input == "" then None else Some(input)
  }

  /** `displayName.replace(/[^a-zA-Z0-9]*\/g, "")`: every character outside `[a-zA-Z0-9]` is dropped. */
  function Sanitize(s: string): (r: string)
    ensures |r| <= |s|
    ensures forall i :: 0 <= i < |r| ==> IsAsciiAlphanumeric(r[i])
    ensures forall c :: c in r <==> c in s && IsAsciiAlphanumeric(c)
  {
    if s == [] then []
    else (if IsAsciiAlphanumeric(s[0]) then [s[0]] else []) + Sanitize(s[1..])
  }

  /**
   * Sanitizing distributes over concatenation: with the contract on a
   * one-character string, every alphanumeric character is kept once, in its place.
   */
  lemma {:induction false} SanitizeConcat(a: string, b: string)
    ensures Sanitize(a + b) == Sanitize(a) + Sanitize(b)
    decreases |a|
  {
    if a == [] {
      assert a + b == b;
    } else {
      assert (a + b)[0] == a[0];
      assert (a + b)[1..] == a[1..] + b;
      SanitizeConcat(a[1..], b);
    }
  }

  /** A name made of `[a-zA-Z0-9]` only is kept as it is. */
  lemma {:induction false} SanitizeKeepsAlphanumeric(s: string)
    requires forall i :: 0 <= i < |s| ==> IsAsciiAlphanumeric(s[i])
    ensures Sanitize(s) == s
  {
    if s != [] {
      SanitizeKeepsAlphanumeric(s[1..]);
      assert s == [s[0]] + s[1..];
    }
  }

  /** Sanitizing twice is sanitizing once. */
  lemma SanitizeIdempotent(s: string)
    ensures Sanitize(Sanitize(s)) == Sanitize(s)
  {
    SanitizeKeepsAlphanumeric(Sanitize(s));
  }

  /** `ticket-${ticket.id}-${sanitized display name}`: the ticket channel's name. */
  function ChannelName(id: nat, displayName: string): (name: string)
    ensures forall i :: 0 <= i < |name| ==> IsAsciiAlphanumeric(name[i]) || name[i] == '-'
  {
    "ticket-" + Decimal(id) + "-" + Sanitize(displayName)
  }

  /** Equal strings with the same beginning have the same rest. */
  lemma CancelPrefix(p: string, u: string, v: string)
    requires p + u == p + v
    ensures u == v
  {
    assert u == (p + u)[|p|..];
    assert v == (p + v)[|p|..];
  }

  /** `ticket-<d>-<s>` with a `-`-free `d` determines both `d` and `s`. */
  lemma TicketNameParts(da: string, sx: string, db: string, sy: string)
    requires '-' !in da && '-' !in db
    requires "ticket-" + da + "-" + sx == "ticket-" + db + "-" + sy
    ensures da == db && sx == sy
  {
    assert da + "-" + sx == db + "-" + sy by {
      assert "ticket-" + da + "-" + sx == "ticket-" + (da + "-" + sx);
      assert "ticket-" + db + "-" + sy == "ticket-" + (db + "-" + sy);
      CancelPrefix("ticket-", da + "-" + sx, db + "-" + sy);
    }
    FirstSeparatorDetermines(da, sx, db, sy, '-');
    CancelPrefix(da + "-", sx, sy);
  }

  /** The channel name determines the ticket id and the sanitized display name. */
  lemma ChannelNameInjective(a: nat, x: string, b: nat, y: string)
    requires ChannelName(a, x) == ChannelName(b, y)
    ensures a == b && Sanitize(x) == Sanitize(y)
  {
    var da, db := Decimal(a), Decimal(b);
    assert '-' !in da by { assert forall i :: 0 <= i < |da| ==> IsDigit(da[i]); }
    assert '-' !in db by { assert forall i :: 0 <= i < |db| ==> IsDigit(db[i]); }
    TicketNameParts(da, Sanitize(x), db, Sanitize(y));
    DecimalInjective(a, b);
  }

  // ---------------------------------------------------------------------------
  // Finding tickets: `findOne({ where: ... })`

  /** `where: { id }` or `where: { channelId }`. */
  datatype Where = IdIs(id: nat) | ChannelIs(channelId: string)

  predicate Selects(t: Ticket, w: Where) {
    match w
    case IdIs(n) => t.id == n
    case ChannelIs(c) => t.channelId == Some(c)
  }

  /** The index of the first row the condition selects, if any. */
  function FindOne(ts: seq<Ticket>, w: Where): (r: Option<nat>)
    ensures r.Some? ==> r.value < |ts| && Selects(ts[r.value], w)
    ensures r.Some? ==> forall j :: 0 <= j < r.value ==> !Selects(ts[j], w)
    ensures r.None? ==> forall j :: 0 <= j < |ts| ==> !Selects(ts[j], w)
  {
    if ts == [] then None
    else if Selects(ts[0], w) then Some(0)
    else match FindOne(ts[1..], w)
      case None => None
      case Some(j) => Some(j + 1)
  }

  /** `+ticketId` for a button argument: a string of decimal digits reads as its value (`+""` as 0); any other text names no ticket. */
  function ParseTicketId(s: string): (n: Option<nat>)
    ensures n.Some? <==> AllDigits(s)
  {
    if AllDigits(s) then Some(ParseDecimal(s)) else None
  }

  /** `findTicket(ticketId)` */
  function FindTicket(ts: seq<Ticket>, ticketId: string): (r: Option<nat>)
    ensures r.Some? ==> ParseTicketId(ticketId).Some? && r.value < |ts| && ts[r.value].id == ParseTicketId(ticketId).value
    ensures r.Some? ==> forall j :: 0 <= j < r.value ==> ts[j].id != ts[r.value].id
    ensures r.None? ==> ParseTicketId(ticketId).None? || forall j :: 0 <= j < |ts| ==> ts[j].id != ParseTicketId(ticketId).value
  {
    match ParseTicketId(ticketId)
    case None => None
    case Some(n) => FindOne(ts, IdIs(n))
  }

  /** In a well-formed table the ticket with id `n` is the row at `n - 1`, and id 0 names none. */
  lemma FindByIdInWellFormed(ts: seq<Ticket>, n: nat)
    requires WellFormed(ts)
    ensures FindOne(ts, IdIs(n)) == if 1 <= n <= |ts| then Some(n - 1) else None
  {
    var r := FindOne(ts, IdIs(n));
    if 1 <= n <= |ts| {
      assert Selects(ts[n - 1], IdIs(n));
    }
  }

  /** The id a button carries finds its ticket again. */
  lemma FindTicketByRenderedId(ts: seq<Ticket>, i: nat)
    requires WellFormed(ts) && i < |ts|
    ensures FindTicket(ts, Decimal(ts[i].id)) == Some(i)
  {
    ParseDecimalOfDecimal(ts[i].id);
    FindByIdInWellFormed(ts, ts[i].id);
  }

  // ---------------------------------------------------------------------------
  // The buttons under a ticket

  /** `support:<action>:<id>` */
  function TicketButtonId(action: string, id: nat): string {
    "support:" + action + ":" + Decimal(id)
  }

  /**
   * `buildActionRow`: a closed ticket offers only the removal of its channel;
   * an open one offers closing and taking over, the latter greyed out once
   * someone is assignee.
   */
  function BuildActionRow(t: Ticket): (row: seq<Button>)
    ensures t.status == Closed ==> |row| == 1 && row[0].customId == TicketButtonId("remove", t.id)
    ensures t.status == Open ==> |row| == 2 && row[0].customId == TicketButtonId("close", t.id)
    ensures t.status == Open ==> row[1].customId == TicketButtonId("self-assign", t.id)
    ensures t.status == Open ==> (row[1].disabled <==> t.assignee.Some?)
    ensures forall k :: 0 <= k < |row| ==> (row[k].disabled ==> t.status == Open && k == 1)
  {
    match t.status
    case Closed => [Button("Channel Schließen", Danger, TicketButtonId("remove", t.id), false)]
    case Open => [
      Button("Schließen", Danger, TicketButtonId("close", t.id), false),
      Button("Übernehmen", Primary, TicketButtonId("self-assign", t.id), t.assignee.Some?)
    ]
  }

  /**
   * A ticket button reaches the `support` class's handler for its action
   * (`@OnButton(action)` registers `support:<action>`), which receives the
   * rendered ticket id as its only argument.
   */
  lemma TicketButtonRoutes(action: string, n: nat)
    requires action != "" && action[0] != '-'
    ensures var key, id := Meta.PrefixedId(Some("support"), Some(action)), TicketButtonId(action, n);
      key == "support:" + action &&
      Meta.IsSegmentPrefix(key, id) &&
      Dispatch.Args(id, key) == [Decimal(n)]
  {
    var key, d := "support:" + action, Decimal(n);
    var id := TicketButtonId(action, n);
    assert Meta.IsSegmentPrefix(key, id) && Dispatch.Args(id, key) == [d] by {
      assert ':' !in d by { assert forall k :: 0 <= k < |d| ==> IsDigit(d[k]); }
      assert id == key + ":" + Join([d], ':');
      Dispatch.ArgsOfBuiltId(key, [d], id);
    }
    assert !Meta.IsEscaped(Some(action));
  }

  /** The handler a ticket's button reaches finds that same ticket again with its argument. */
  lemma TicketButtonRoutesBack(ts: seq<Ticket>, i: nat, action: string)
    requires WellFormed(ts) && i < |ts|
    requires action != "" && action[0] != '-'
    ensures var key := Meta.PrefixedId(Some("support"), Some(action));
      FindTicket(ts, Dispatch.Args(TicketButtonId(action, ts[i].id), key)[0]) == Some(i)
  {
    TicketButtonRoutes(action, ts[i].id);
    FindTicketByRenderedId(ts, i);
  }

  // ---------------------------------------------------------------------------
  // The ticket table and the operations that change it

  datatype SelfAssignOutcome = NoSuchTicket | OwnTicket | TakenOver

  class TicketStore {
    var tickets: seq<Ticket>

    constructor ()
      ensures tickets == []
    {
      tickets := [];
    }

    /**
     * `onCreateSupportTicketSubmit` followed by `populateSupportTicket`: the
     * gates, then the row is saved (which assigns the next id), then the
     * channel named after it is created in the support category and its id is
     * stored on the row once the channel has been initialised. `newChannel` is
     * `Some(id)` only when fetching the category, creating the channel and
     * initialising it (permissions, greeting, status) all succeed; on any
     * failure it is `None`, and the handler ends with the open row already
     * saved and no channel on it.
     */
    method SubmitCreate(guild: string, author: string, displayName: string, memberRoles: set<string>,
                        modRoleId: string, title: string, description: string, newChannel: Option<string>)
        returns (outcome: Admission, channelName: Option<string>)
      requires WellFormed(tickets)
      modifies this
      ensures WellFormed(tickets)
      ensures outcome == Admit(OpenCount(old(tickets), ByAuthor(author)), OpenCount(old(tickets), InGuild(guild)),
                               modRoleId in memberRoles)
      ensures outcome != Admitted ==> tickets == old(tickets) && channelName == None
      ensures outcome == Admitted ==>
        tickets == old(tickets) + [Ticket(|old(tickets)| + 1, guild, author, None, title, StoredDescription(description),
                                          Open, newChannel, None)] &&
        channelName == (if newChannel.Some? then Some(ChannelName(|old(tickets)| + 1, displayName)) else None)
    {
      var isMod := modRoleId in memberRoles;
      var ticketCount := OpenCount(tickets, ByAuthor(author));
      if ticketCount > PersonalLimit && !isMod {
        return TooManyPersonal, None;
      }
      var totalCount := OpenCount(tickets, InGuild(guild));
      if totalCount > ServerLimit && !isMod {
        return TooManyOnServer, None;
      }
      var ticket := Ticket(|tickets| + 1, guild, author, None, title, StoredDescription(description), Open, None, None);
      tickets := tickets + [ticket];
      outcome, channelName := Admitted, None;
      if newChannel.Some? {
        var name := ChannelName(ticket.id, displayName);
        tickets := tickets[|tickets| - 1 := ticket.(channelId := newChannel)];
        channelName := Some(name);
      }
    }

    /** `onTicketClose`: the ticket named by the button is marked closed at `now`; there is no check of who closes it. */
    method Close(ticketId: string, now: int)
      requires WellFormed(tickets)
      modifies this
      ensures WellFormed(tickets)
      ensures FindTicket(old(tickets), ticketId).None? ==> tickets == old(tickets)
      ensures FindTicket(old(tickets), ticketId).Some? ==>
        var i := FindTicket(old(tickets), ticketId).value;
        tickets == old(tickets)[i := old(tickets)[i].(status := Closed, closedAt := Some(now))]
    {
      var found := FindTicket(tickets, ticketId);
      if found.Some? {
        var i := found.value;
        tickets := tickets[i := tickets[i].(status := Closed, closedAt := Some(now))];
      }
    }

    /** `onTicketSelfAssign`: anyone but the author takes the ticket over. */
    method SelfAssign(ticketId: string, actor: string) returns (outcome: SelfAssignOutcome)
      requires WellFormed(tickets)
      modifies this
      ensures WellFormed(tickets)
      ensures outcome == NoSuchTicket <==> FindTicket(old(tickets), ticketId).None?
      ensures outcome != TakenOver ==> tickets == old(tickets)
      ensures outcome == OwnTicket ==> old(tickets)[FindTicket(old(tickets), ticketId).value].author == actor
      ensures outcome == TakenOver ==>
        var i := FindTicket(old(tickets), ticketId).value;
        old(tickets)[i].author != actor && tickets == old(tickets)[i := old(tickets)[i].(assignee := Some(actor))]
    {
      var found := FindTicket(tickets, ticketId);
      if found.None? {
        return NoSuchTicket;
      }
      var i := found.value;
      if tickets[i].author == actor {
        return OwnTicket;
      }
      tickets := tickets[i := tickets[i].(assignee := Some(actor))];
      outcome := TakenOver;
    }

    /**
     * `onSupportAssign`: in a ticket's channel, the chosen member becomes the
     * assignee; when the member lookup yields nothing the previous assignee stays.
     */
    method Assign(channelId: string, member: Option<string>) returns (inTicket: bool)
      requires WellFormed(tickets)
      modifies this
      ensures WellFormed(tickets)
      ensures inTicket <==> FindOne(old(tickets), ChannelIs(channelId)).Some?
      ensures !inTicket ==> tickets == old(tickets)
      ensures inTicket ==>
        var i := FindOne(old(tickets), ChannelIs(channelId)).value;
        tickets == old(tickets)[i := old(tickets)[i].(assignee := if member.Some? then member else old(tickets)[i].assignee)]
    {
      var found := FindOne(tickets, ChannelIs(channelId));
      if found.None? {
        return false;
      }
      var i := found.value;
      tickets := tickets[i := tickets[i].(assignee := if member.Some? then member else tickets[i].assignee)];
      inTicket := true;
    }
  }

  /** After closing, the ticket offers only the removal of its channel. */
  lemma ClosedTicketOffersRemovalOnly(t: Ticket, now: int)
    ensures var row := BuildActionRow(t.(status := Closed, closedAt := Some(now)));
      |row| == 1 && row[0].customId == TicketButtonId("remove", t.id) && !row[0].disabled
  {
  }

  /** Once taken over, an open ticket's take-over button is greyed out and its close button is not. */
  lemma TakenOverDisablesSelfAssign(t: Ticket, actor: string)
    requires t.status == Open
    ensures var row := BuildActionRow(t.(assignee := Some(actor)));
      row[1].disabled && !row[0].disabled
  {
  }

  /** Closing frees the author's quota: their open count drops by one, and nobody else's changes. */
  lemma CloseFreesQuota(ts: seq<Ticket>, i: nat, now: int, author: string)
    requires i < |ts| && ts[i].status == Open
    ensures OpenCount(ts[i := ts[i].(status := Closed, closedAt := Some(now))], ByAuthor(author)) ==
      OpenCount(ts, ByAuthor(author)) - (if ts[i].author == author then 1 else 0)
  {
    OpenCountUpdate(ts, i, ts[i].(status := Closed, closedAt := Some(now)), ByAuthor(author));
  }

  /**
   * `onTicketRemove`: the channel to delete. An unknown ticket makes the
   * handler fail before any deletion; a ticket without a channel finds no
   * channel to delete.
   */
  function RemovalTarget(ts: seq<Ticket>, ticketId: string): (channel: Option<string>)
    ensures channel.Some? <==> FindTicket(ts, ticketId).Some? && ts[FindTicket(ts, ticketId).value].channelId.Some?
    ensures channel.Some? ==> channel == ts[FindTicket(ts, ticketId).value].channelId
  {
    match FindTicket(ts, ticketId)
    case None => None
    case Some(i) => ts[i].channelId
  }

  /**
   * A creation whose channel could not be made leaves an open row behind: it
   * counts against both quotas like any other, and its removal button finds
   * no channel to delete.
   */
  lemma FailedCreationStillCounts(ts: seq<Ticket>, t: Ticket)
    requires WellFormed(ts + [t]) && t.status == Open && t.channelId == None
    ensures OpenCount(ts + [t], ByAuthor(t.author)) == OpenCount(ts, ByAuthor(t.author)) + 1
    ensures OpenCount(ts + [t], InGuild(t.guild)) == OpenCount(ts, InGuild(t.guild)) + 1
    ensures RemovalTarget(ts + [t], Decimal(t.id)) == None
  {
    OpenCountSnoc(ts, t, ByAuthor(t.author));
    OpenCountSnoc(ts, t, InGuild(t.guild));
    FindTicketByRenderedId(ts + [t], |ts|);
  }

  /** What `support add` and `support remove` do to a user's access to the current channel. */
  datatype Participation = NotATicketChannel | Grant(user: string) | Revoke(user: string)

  /** `onSupportAddPerson` / `onSupportRemovePerson`: only inside a ticket's channel is anything changed. */
  function ChangeParticipant(ts: seq<Ticket>, channelId: string, user: string, add: bool): (p: Participation)
    ensures p == NotATicketChannel <==> forall j :: 0 <= j < |ts| ==> ts[j].channelId != Some(channelId)
    ensures p != NotATicketChannel ==> p.user == user && (p.Grant? <==> add)
  {
    if FindOne(ts, ChannelIs(channelId)).None? then NotATicketChannel
    else if add then Grant(user)
    else Revoke(user)
  }

  // ---------------------------------------------------------------------------
  // The "open a ticket" message

  /** What `support message` does. */
  datatype MessageCommand = OpenEditor | Denied | MissingContent | Publish(content: string)

  /**
   * `onSupportMessageUpdate`: the content option, trimmed; `-` opens the
   * editor before any permission check, then non-administrators are refused,
   * then an empty content is refused, else the content is published.
   */
  function MessageUpdate(raw: Option<string>, isAdmin: bool): (d: MessageCommand)
    ensures d == OpenEditor <==> raw.Some? && Trim(raw.value) == "-"
    ensures d == Denied <==> !isAdmin && !(raw.Some? && Trim(raw.value) == "-")
    ensures d == MissingContent <==> isAdmin && (raw.None? || Trim(raw.value) == "")
    ensures d.Publish? ==> isAdmin && raw.Some? && d.content == Trim(raw.value) && d.content !in {"", "-"}
  {
    var content := if raw.Some? then Some(Trim(raw.value)) else None;
    if content == Some("-") then OpenEditor
    else if !isAdmin then Denied
    else if !Truthy(content) then MissingContent
    else Publish(content.value)
  }

  /** `msg.content || "Eröffne eine Supportanfrage:"` */
  function PromptContent(stored: string): (content: string)
    ensures content != ""
    ensures stored != "" ==> content == stored
  {
    if stored != "" then stored else "Eröffne eine Supportanfrage:"
  }

  /** The button under the message, which opens the creation form. */
  const CreateButton := Button("Support-Ticket eröffnen", Primary, "support:create", false)

  /** The button's id is exactly the key `@OnButton("create")` registers in the `support` class. */
  lemma CreateButtonRoutesToForm()
    ensures CreateButton.customId == Meta.PrefixedId(Some("support"), Some("create"))
    ensures Dispatch.Args(CreateButton.customId, Meta.PrefixedId(Some("support"), Some("create"))) == [""]
  {
    assert !Meta.IsEscaped(Some("create"));
    assert "support" + ":" + "create" == "support:create";
  }
}
