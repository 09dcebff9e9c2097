/**
 * `findChannel` and `findTextChannel`: a channel named in a message or a
 * command is found by id when the text is a number, by name otherwise.
 */
module FindChannel {
  import opened Wrappers
  import opened Strings

  /** A guild channel: its id and its name. */
  datatype Channel = Channel(id: string, name: string)

  /** `/^[0-9]+$/`: at least one digit and nothing else. */
  predicate IsNumericId(s: string) {
    s != "" && AllDigits(s)
  }

  /**
   * What a lookup comes to: a channel, nothing (`find` found no match), or a
   * rejected promise (`fetch` of an id the guild has no channel for).
   */
  datatype Lookup = Found(channel: Channel) | NotFound | Rejected

  /** `guild.channels.fetch(id)`: the channel with that id; for an unknown id the promise rejects. */
  function FetchById(channels: seq<Channel>, id: string): (r: Lookup)
    ensures r.Found? ==> r.channel in channels && r.channel.id == id
    ensures r.Rejected? <==> forall k :: 0 <= k < |channels| ==> channels[k].id != id
    ensures !r.NotFound?
  {
    if channels == [] then Rejected
    else if channels[0].id == id then Found(channels[0])
    else FetchById(channels[1..], id)
  }

  /** `channels.find(it => it.name === name)`: the first channel in collection order with that name. */
  function FirstNamed(channels: seq<Channel>, name: string): (r: Option<Channel>)
    ensures r.None? <==> forall k :: 0 <= k < |channels| ==> channels[k].name != name
    ensures r.Some? ==> exists k :: (0 <= k < |channels| && channels[k] == r.value && r.value.name == name &&
      forall j :: 0 <= j < k ==> channels[j].name != name)
  {
    if channels == [] then None
    else if channels[0].name == name then
      Some(channels[0])
    else
      var r := FirstNamed(channels[1..], name);
      if r.Some? then
        var k :| (0 <= k < |channels[1..]| && channels[1..][k] == r.value && r.value.name == name &&
          forall j :: 0 <= j < k ==> channels[1..][j].name != name);
        assert channels[k + 1] == r.value;
        assert forall j :: 1 <= j < k + 1 ==> channels[j] == channels[1..][j - 1];
        r
      else r
  }

  /** `findChannel(guild, channelId)`: numeric text is looked up as an id, any other text (`""` included) as a name. */
  function FindChannel(channels: seq<Channel>, channelId: string): (r: Lookup)
    ensures IsNumericId(channelId) ==> r == FetchById(channels, channelId)
    ensures !IsNumericId(channelId) ==>
      r == (if FirstNamed(channels, channelId).Some? then Found(FirstNamed(channels, channelId).value) else NotFound)
  {
    if IsNumericId(channelId) then FetchById(channels, channelId)
    else
      match FirstNamed(channels, channelId)
      case Some(c) => Found(c)
      case None => NotFound
  }

  /** `findTextChannel`: the same outcome, only typed as a text channel. */
  function FindTextChannel(channels: seq<Channel>, channelId: string): (r: Lookup)
    ensures r == FindChannel(channels, channelId)
  {
    FindChannel(channels, channelId)
  }

  /**
   * A numeric text finds only the channel with that id, even when another
   * channel carries that text as its name, and rejects when no channel has
   * that id; a non-numeric text never rejects: it finds a channel whose name
   * it is, or nothing exactly when no channel has that name.
   */
  lemma LookupKind(channels: seq<Channel>, channelId: string)
    ensures FindChannel(channels, channelId).Found? && IsNumericId(channelId) ==>
      FindChannel(channels, channelId).channel.id == channelId
    ensures IsNumericId(channelId) ==>
      (FindChannel(channels, channelId).Rejected? <==> forall k :: 0 <= k < |channels| ==> channels[k].id != channelId)
    ensures FindChannel(channels, channelId).Found? && !IsNumericId(channelId) ==>
      FindChannel(channels, channelId).channel.name == channelId
    ensures !IsNumericId(channelId) ==> !FindChannel(channels, channelId).Rejected?
    ensures !IsNumericId(channelId) ==>
      (FindChannel(channels, channelId).NotFound? <==> forall k :: 0 <= k < |channels| ==> channels[k].name != channelId)
  {
  }

  /** Two channels with the same name: the first one in collection order is found. */
  lemma FirstOfDuplicateNames(a: Channel, b: Channel, rest: seq<Channel>)
    requires a.name == b.name && !IsNumericId(a.name)
    ensures FindChannel([a, b] + rest, a.name) == Found(a)
  {
    assert ([a, b] + rest)[0] == a;
  }

  /** The empty text is never taken for an id: it can only find a channel with an empty name, and never rejects. */
  lemma EmptyTextIsAName(channels: seq<Channel>)
    ensures FindChannel(channels, "").Found? <==> FirstNamed(channels, "").Some?
    ensures !FindChannel(channels, "").Rejected?
  {
  }
}
