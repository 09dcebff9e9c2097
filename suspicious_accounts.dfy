/**
 * The `sus` handler class: a per-guild list of the members flagged as
 * suspicious, kept in memory next to the `suspect` flag of the member rows,
 * and the reports posted to a member's thread when a flagged member posts,
 * edits or deletes a message or changes nickname.
 *
 * Members are named by their Discord ids; `${member}` renders as `<@id>`.
 */
module SuspiciousAccounts {
  import opened Wrappers
  import opened Strings
  import opened Components
  import Dispatch

  /** A `ServerMember` row, as far as this service reads it. */
  datatype MemberRow = MemberRow(discordId: string, guild: string, suspect: bool)

  /** The ids of one guild's rows flagged `suspect`, in row order: the query of `onInit` and its `map`. */
  function SuspectIds(rows: seq<MemberRow>, guild: string): (ids: seq<string>)
    ensures |ids| <= |rows|
    ensures forall x :: x in ids <==>
      exists k :: 0 <= k < |rows| && rows[k].guild == guild && rows[k].suspect && rows[k].discordId == x
    ensures |rows| == 1 ==> ids == (if rows[0].guild == guild && rows[0].suspect then [rows[0].discordId] else [])
  {
    if rows == [] then []
    else
      var init, last := rows[..|rows| - 1], rows[|rows| - 1];
      var ids := SuspectIds(init, guild) + (if last.guild == guild && last.suspect then [last.discordId] else []);
      assert forall k :: 0 <= k < |init| ==> rows[k] == init[k];
      ids
  }

  /**
   * The query distributes over the rows: with the one-row case of the
   * contract, every flagged row gives exactly one id, in row order.
   */
  lemma {:induction false} SuspectIdsConcat(r1: seq<MemberRow>, r2: seq<MemberRow>, guild: string)
    ensures SuspectIds(r1 + r2, guild) == SuspectIds(r1, guild) + SuspectIds(r2, guild)
    decreases |r2|
  {
    if r2 == [] {
      assert r1 + r2 == r1;
    } else {
      var rows, init, last := r1 + r2, r2[..|r2| - 1], r2[|r2| - 1];
      var tail := if last.guild == guild && last.suspect then [last.discordId] else [];
      assert SuspectIds(rows, guild) == SuspectIds(r1 + init, guild) + tail by {
        assert rows[..|rows| - 1] == r1 + init;
        assert rows[|rows| - 1] == last;
      }
      assert SuspectIds(r1 + init, guild) == SuspectIds(r1, guild) + SuspectIds(init, guild) by {
        SuspectIdsConcat(r1, init, guild);
      }
      assert SuspectIds(r2, guild) == SuspectIds(init, guild) + tail;
    }
  }

  // ---------------------------------------------------------------------------
  // List updates

  /** `accs.indexOf(x)`: the first position of `x`, or -1. */
  function IndexOf(s: seq<string>, x: string): (r: int)
    ensures r == -1 <==> x !in s
    ensures r != -1 ==> 0 <= r < |s| && s[r] == x && x !in s[..r]
  {
    if s == [] then -1
    else if s[0] == x then 0
    else
      var r := IndexOf(s[1..], x);
      if r == -1 then -1
      else
        assert s[..r + 1] == [s[0]] + s[1..][..r];
        r + 1
  }

  /** The list without the first occurrence of `x`; the list itself when `x` is absent. */
  function RemoveFirst(s: seq<string>, x: string): seq<string>
  {
    if s == [] then []
    else if s[0] == x then s[1..]
    else [s[0]] + RemoveFirst(s[1..], x)
  }

  /** `if (index !== -1) accs.splice(index, 1)` removes exactly the first occurrence. */
  lemma {:induction false} SpliceRemovesFirst(s: seq<string>, x: string)
    requires x in s
    ensures s[..IndexOf(s, x)] + s[IndexOf(s, x) + 1..] == RemoveFirst(s, x)
  {
    if s[0] != x {
      assert x in s[1..] by { assert s == [s[0]] + s[1..]; }
      SpliceRemovesFirst(s[1..], x);
      var i := IndexOf(s[1..], x);
      assert s[..i + 1] == [s[0]] + s[1..][..i];
      assert s[i + 2..] == s[1..][i + 1..];
    }
  }

  /** Removing an id that is not listed changes nothing. */
  lemma {:induction false} RemoveAbsent(s: seq<string>, x: string)
    requires x !in s
    ensures RemoveFirst(s, x) == s
  {
    if s != [] {
      assert x !in s[1..] by { assert s == [s[0]] + s[1..]; }
      RemoveAbsent(s[1..], x);
      assert s == [s[0]] + s[1..];
    }
  }

  /** Removal takes away exactly one copy of a listed id, and keeps every other entry. */
  lemma {:induction false} RemoveFirstMultiset(s: seq<string>, x: string)
    ensures multiset(RemoveFirst(s, x)) == multiset(s) - multiset{x}
  {
    if s != [] {
      assert s == [s[0]] + s[1..];
      if s[0] != x {
        RemoveFirstMultiset(s[1..], x);
      }
    }
  }

  /** Adding then removing an id that was not listed gives the list back. */
  lemma AddThenRemoveNew(s: seq<string>, x: string)
    requires x !in s
    ensures RemoveFirst(s + [x], x) == s
  {
    RemoveFirstFirstCopy(s, x, []);
    assert s + [x] + [] == s + [x];
    assert s + [] == s;
  }

  /**
   * Adding does not check for duplicates, so an id added twice is listed
   * twice, and one removal leaves one copy.
   */
  lemma AddTwiceRemoveOnce(s: seq<string>, x: string)
    requires x !in s
    ensures multiset(s + [x] + [x])[x] == 2
    ensures RemoveFirst(s + [x] + [x], x) == s + [x]
  {
    assert s + [x] + [x] == (s + [x]) + [x];
    assert multiset(s)[x] == 0;
    RemoveFirstFirstCopy(s, x, [x]);
  }

  /** The first copy is the one removed: what follows it stays in place. */
  lemma {:induction false} RemoveFirstFirstCopy(s: seq<string>, x: string, rest: seq<string>)
    requires x !in s
    ensures RemoveFirst(s + [x] + rest, x) == s + rest
  {
    if s == [] {
      assert s + [x] + rest == [x] + rest;
    } else {
      assert (s + [x] + rest)[0] == s[0];
      assert (s + [x] + rest)[1..] == s[1..] + [x] + rest;
      assert x !in s[1..] by { assert s == [s[0]] + s[1..]; }
      RemoveFirstFirstCopy(s[1..], x, rest);
      assert s + rest == [s[0]] + (s[1..] + rest);
    }
  }

  // ---------------------------------------------------------------------------
  // The in-memory lists

  class AccountLists {
    /** `susAccounts`: guild id to the ids of its flagged members. */
    var susAccounts: map<string, seq<string>>

    constructor ()
      ensures susAccounts == map[]
    {
      susAccounts := map[];
    }

    /** The loop of `onInit`: every cached guild gets the ids of its members flagged `suspect`. */
    method Init(guilds: seq<string>, rows: seq<MemberRow>)
      modifies this
      ensures forall g :: g in guilds ==> g in susAccounts && susAccounts[g] == SuspectIds(rows, g)
      ensures forall g :: g !in guilds ==> (g in susAccounts <==> g in old(susAccounts))
      ensures forall g :: g !in guilds && g in old(susAccounts) ==> susAccounts[g] == old(susAccounts)[g]
    {
      for i := 0 to |guilds|
        invariant forall g :: g in guilds[..i] ==> g in susAccounts && susAccounts[g] == SuspectIds(rows, g)
        invariant forall g :: g !in guilds[..i] ==> (g in susAccounts <==> g in old(susAccounts))
        invariant forall g :: g !in guilds[..i] && g in old(susAccounts) ==> susAccounts[g] == old(susAccounts)[g]
      {
        assert guilds[..i + 1] == guilds[..i] + [guilds[i]];
        susAccounts := susAccounts[guilds[i] := SuspectIds(rows, guilds[i])];
      }
      assert guilds[..|guilds|] == guilds;
    }

    /**
     * The list update of `onSusAccountAdd`: the id is appended without a
     * duplicate check. A guild without a list makes `push` fail, and nothing changes.
     */
    method Add(guild: string, user: string) returns (ok: bool)
      modifies this
      ensures ok <==> guild in old(susAccounts)
      ensures !ok ==> susAccounts == old(susAccounts)
      ensures ok ==> susAccounts == old(susAccounts)[guild := old(susAccounts)[guild] + [user]]
    {
      if guild !in susAccounts {
        return false;
      }
      susAccounts := susAccounts[guild := susAccounts[guild] + [user]];
      ok := true;
    }

    /**
     * The list update of `onSusAccountRemove`: the first occurrence is
     * spliced out; other guilds' lists are not touched.
     */
    method Remove(guild: string, user: string) returns (ok: bool)
      modifies this
      ensures ok <==> guild in old(susAccounts)
      ensures !ok ==> susAccounts == old(susAccounts)
      ensures ok ==> susAccounts == old(susAccounts)[guild := RemoveFirst(old(susAccounts)[guild], user)]
    {
      if guild !in susAccounts {
        return false;
      }
      var accs := susAccounts[guild];
      var index := IndexOf(accs, user);
      if index != -1 {
        SpliceRemovesFirst(accs, user);
        susAccounts := susAccounts[guild := accs[..index] + accs[index + 1..]];
      } else {
        RemoveAbsent(accs, user);
      }
      ok := true;
    }

    /** `onSusAccountList`'s reply for a guild; a guild without a list makes `map` fail. */
    function ListReply(guild: string): (reply: Option<string>)
      reads this
      ensures reply.Some? <==> guild in susAccounts
      ensures reply.Some? ==> reply.value == ListHeader + Join(MentionLines(susAccounts[guild]), '\n')
    {
      if guild in susAccounts then Some(ListHeader + Join(MentionLines(susAccounts[guild]), '\n')) else None
    }
  }

  // ---------------------------------------------------------------------------
  // Rendering

  const ListHeader := "**Hier ist eine Auflistung aller verdächtigen Accounts:**\n\n"

  /** `<@id> (id)` */
  function MentionLine(id: string): string {
    "<@" + id + "> (" + id + ")"
  }

  /** `users.map(it => `<@${it}> (${it})`)` */
  function MentionLines(ids: seq<string>): (lines: seq<string>)
    ensures |lines| == |ids|
    ensures forall k :: 0 <= k < |ids| ==> lines[k] == MentionLine(ids[k])
  {
    if ids == [] then [] else [MentionLine(ids[0])] + MentionLines(ids[1..])
  }

  /**
   * The list reads back line by line: after the header, line `k` of the
   * reply mentions the `k`-th listed id, in list order (ids hold no line break).
   */
  lemma ListReadsBack(ids: seq<string>)
    requires |ids| >= 1
    requires forall k :: 0 <= k < |ids| ==> '\n' !in ids[k]
    ensures var body := Join(MentionLines(ids), '\n');
      |Split(body, '\n')| == |ids| &&
      forall k :: 0 <= k < |ids| ==> Split(body, '\n')[k] == MentionLine(ids[k])
  {
    var lines := MentionLines(ids);
    forall k | 0 <= k < |lines| ensures '\n' !in lines[k] {
      assert lines[k] == "<@" + ids[k] + "> (" + ids[k] + ")";
      assert forall c :: c in lines[k] ==> c in "<@> ()" || c in ids[k];
    }
    SplitJoin(lines, '\n');
  }

  /** `[first, reason ? `Grund: ${reason}` : undefined].filter(it => it).join("\n")` */
  function WithReason(first: string, reason: Option<string>): (content: string)
  {
    Join(FilterNonEmpty([first] + (if Truthy(reason) then ["Grund: " + reason.value] else [])), '\n')
  }

  /** The reason line is there exactly when a non-empty reason is given. */
  lemma WithReasonLines(first: string, reason: Option<string>)
    requires first != "" && '\n' !in first
    ensures !Truthy(reason) ==> WithReason(first, reason) == first
    ensures Truthy(reason) && '\n' !in reason.value ==>
      Split(WithReason(first, reason), '\n') == [first, "Grund: " + reason.value]
  {
    if Truthy(reason) {
      var parts := [first, "Grund: " + reason.value];
      assert [first] + ["Grund: " + reason.value] == parts;
      FilterNonEmptyKeepsNonEmpty(parts);
      if '\n' !in reason.value {
        assert forall c :: c in "Grund: " + reason.value ==> c in "Grund: " || c in reason.value;
        SplitJoin(parts, '\n');
      }
    } else {
      assert [first] + [] == [first];
      FilterNonEmptyKeepsNonEmpty([first]);
    }
  }

  /** The first message of a new thread (`createThread`). */
  function ThreadStarter(memberId: string, reason: Option<string>): string {
    WithReason("Verdächtiger Account: <@" + memberId + ">", reason)
  }

  /** The notice in a re-opened thread (`onSusAccountAdd`). */
  function ReflaggedNotice(memberId: string, reason: Option<string>): string {
    WithReason("<@" + memberId + "> ist wieder als verdächtig markiert.", reason)
  }

  /** The thread's first message names the member, and carries the reason line exactly when a reason is given. */
  lemma ThreadStarterLines(memberId: string, reason: Option<string>)
    requires '\n' !in memberId
    ensures !Truthy(reason) ==> ThreadStarter(memberId, reason) == "Verdächtiger Account: <@" + memberId + ">"
    ensures Truthy(reason) && '\n' !in reason.value ==>
      Split(ThreadStarter(memberId, reason), '\n') == ["Verdächtiger Account: <@" + memberId + ">", "Grund: " + reason.value]
  {
    var first := "Verdächtiger Account: <@" + memberId + ">";
    assert '\n' !in first by {
      assert forall c :: c in first ==> c in "Verdächtiger Account: <@" || c in memberId || c == '>';
    }
    WithReasonLines(first, reason);
  }

  /** The re-flag notice names the member, and carries the reason line exactly when a reason is given. */
  lemma ReflaggedNoticeLines(memberId: string, reason: Option<string>)
    requires '\n' !in memberId
    ensures !Truthy(reason) ==> ReflaggedNotice(memberId, reason) == "<@" + memberId + "> ist wieder als verdächtig markiert."
    ensures Truthy(reason) && '\n' !in reason.value ==>
      Split(ReflaggedNotice(memberId, reason), '\n') == ["<@" + memberId + "> ist wieder als verdächtig markiert.", "Grund: " + reason.value]
  {
    var first := "<@" + memberId + "> ist wieder als verdächtig markiert.";
    assert '\n' !in first by {
      assert forall c :: c in first ==> c in "<@" || c in memberId || c in "> ist wieder als verdächtig markiert.";
    }
    WithReasonLines(first, reason);
  }

  // ---------------------------------------------------------------------------
  // Activity reports

  /** The characters `replace(/[*\\_~|]+/g, "")` removes. */
  predicate IsMarkup(c: char) { c == '*' || c == '\\' || c == '_' || c == '~' || c == '|' }

  /** The message text with the markdown characters removed, before it is diffed. */
  function StripMarkup(s: string): (r: string)
    ensures |r| <= |s|
    ensures forall i :: 0 <= i < |r| ==> !IsMarkup(r[i])
    ensures forall c :: c in r <==> c in s && !IsMarkup(c)
  {
    if s == [] then []
    else (if IsMarkup(s[0]) then [] else [s[0]]) + StripMarkup(s[1..])
  }

  /**
   * Stripping distributes over concatenation: with the contract on a
   * one-character string, every other character is kept once, in its place.
   */
  lemma {:induction false} StripMarkupConcat(a: string, b: string)
    ensures StripMarkup(a + b) == StripMarkup(a) + StripMarkup(b)
    decreases |a|
  {
    if a == [] {
      assert a + b == b;
    } else {
      assert (a + b)[0] == a[0];
      assert (a + b)[1..] == a[1..] + b;
      StripMarkupConcat(a[1..], b);
    }
  }

  /** Text without markup is left alone. */
  lemma {:induction false} StripMarkupKeepsPlain(s: string)
    requires forall i :: 0 <= i < |s| ==> !IsMarkup(s[i])
    ensures StripMarkup(s) == s
  {
    if s != [] {
      StripMarkupKeepsPlain(s[1..]);
      assert s == [s[0]] + s[1..];
    }
  }

  /** Stripping twice is stripping once. */
  lemma StripMarkupIdempotent(s: string)
    ensures StripMarkup(StripMarkup(s)) == StripMarkup(s)
  {
    StripMarkupKeepsPlain(StripMarkup(s));
  }

  /** `oldMsg.cleanContent === newMsg.cleanContent && oldMsg.cleanContent`: an edit that is not reported. */
  predicate SkipUpdate(oldContent: string, newContent: string) {
    oldContent == newContent && oldContent != ""
  }

  /** The events the class listens to, with what it reads of them. */
  datatype Activity =
    | MessageCreated(channelId: string, messageId: string)
    | MessageUpdated(channelId: string, messageId: string, oldContent: string, newContent: string)
    | MessageDeleted(channelId: string, messageId: string)
    | MemberRenamed(memberId: string, oldName: string, newName: string)

  /** What is posted to the member's thread: a titled embed with a delete button, or a plain line. */
  datatype Report = Embedded(title: string, button: Button) | Line(content: string)

  /** `buildMessageActionRow`: the button that deletes the reported message. */
  function DeleteButton(channelId: string, messageId: string): Button {
    Button("Löschen", Danger, Dispatch.MessageDeleteId(channelId, messageId), false)
  }

  /**
   * `onMessageCreate`, `onMessageUpdate`, `onMessageDelete` and
   * `onMemberUpdate`: members not flagged `suspect` produce nothing; an edit
   * that leaves a non-empty content as it was produces nothing.
   */
  function ReportFor(a: Activity, isSuspect: bool): (r: Option<Report>)
    ensures !isSuspect ==> r.None?
    ensures isSuspect && a.MessageUpdated? ==> (r.None? <==> SkipUpdate(a.oldContent, a.newContent))
    ensures isSuspect && !a.MessageUpdated? ==> r.Some?
    ensures r.Some? && !a.MemberRenamed? ==>
      r.value.Embedded? && r.value.button == DeleteButton(a.channelId, a.messageId)
  {
    if !isSuspect then None
    else match a
      case MessageCreated(c, m) => Some(Embedded("Nachricht gepostet", DeleteButton(c, m)))
      case MessageUpdated(c, m, o, n) =>
        if SkipUpdate(o, n) then None else Some(Embedded("Nachricht bearbeitet", DeleteButton(c, m)))
      case MessageDeleted(c, m) => Some(Embedded("Nachricht gelöscht", DeleteButton(c, m)))
      case MemberRenamed(id, o, n) =>
        Some(Line("<@" + id + "> hat den Nickname von **" + o + "** zu **" + n + "** geändert."))
  }

  /** An edit is reported whenever the text changed, and always when the old text was empty. */
  lemma ChangedEditsAreReported(c: string, m: string, o: string, n: string)
    ensures (o != n || o == "") ==> ReportFor(MessageUpdated(c, m, o, n), true).Some?
    ensures o == n && o != "" ==> ReportFor(MessageUpdated(c, m, o, n), true).None?
  {
  }

  /** The delete button reaches the `messages:delete` handler with the channel and message ids. */
  lemma DeleteButtonRoutes(channelId: string, messageId: string)
    requires ':' !in channelId && ':' !in messageId
    ensures var id := DeleteButton(channelId, messageId).customId;
      Dispatch.Args(id, "messages:delete") == [channelId, messageId]
  {
    Dispatch.MessageDeleteRouting(channelId, messageId);
  }
}
