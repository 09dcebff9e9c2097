/**
 * The identifier scheme of the decorator package: every handler class has a
 * namespace (`prefix`), every UI element a custom id `prefix:id:arg:...`, and
 * an inbound id is routed to a handler when the handler's full id is a
 * whole-segment prefix of it.
 */
module Meta {
  import opened Wrappers
  import opened Strings

  /** Handlers are opaque; a label names one. */
  type HandlerLabel = string

  /** An id that is non-empty and starts with `-` is already fully qualified. */
  predicate IsEscaped(id: Option<string>) {
    id.Some? && id.value != "" && id.value[0] == '-'
  }

  /**
   * `prefixedId(prefix, id)`. The escape drops the `-` and ignores the prefix;
   * otherwise the namespace's segments come first and the id's follow.
   */
  function PrefixedId(prefix: Option<string>, id: Option<string>): (full: string)
    ensures IsEscaped(id) ==> "-" + full == id.value
    ensures !IsEscaped(id) && Truthy(prefix) ==>
      Split(full, ':') == Split(prefix.value, ':') + (if Truthy(id) then Split(id.value, ':') else [])
    ensures !IsEscaped(id) && !Truthy(prefix) ==> full == id.GetOr("")
  {
    if IsEscaped(id) then
      assert id.value == "-" + id.value[1..];
      id.value[1..]
    else if Truthy(prefix) then
      if Truthy(id) then
        SplitConcat(prefix.value, id.value, ':');
        prefix.value + ":" + id.value
      else prefix.value
    else id.GetOr("")
  }

  /** `toCheck === full || toCheck.startsWith(full + ":")` */
  predicate IsSegmentPrefix(full: string, toCheck: string) {
    toCheck == full || full + ":" <= toCheck
  }

  /** `idMatches(toCheck, prefix, id)` */
  predicate IdMatches(toCheck: string, prefix: Option<string>, id: Option<string>) {
    IsSegmentPrefix(PrefixedId(prefix, id), toCheck)
  }

  /**
   * `remainingId(toCheck, prefix, id)`: what follows the full id and its colon,
   * split on `:`, empty segments dropped. An input that is not longer than the
   * full id leaves nothing (`slice` past the end is empty).
   */
  function RemainingId(toCheck: string, prefix: Option<string>, id: Option<string>): (tail: seq<string>)
    ensures forall k :: 0 <= k < |tail| ==> tail[k] != "" && ':' !in tail[k]
    ensures toCheck == PrefixedId(prefix, id) ==> tail == []
  {
    var full := PrefixedId(prefix, id);
    var parts := Split(SliceFrom(toCheck, |full| + 1), ':');
    var tail := FilterNonEmpty(parts);
    assert forall k :: 0 <= k < |tail| ==> tail[k] in parts;
    tail
  }

  /**
   * Matching is whole-segment: a full id matches exactly the ids whose
   * `:`-segments begin with the full id's segments.
   */
  lemma SegmentPrefixIffSplitPrefix(full: string, toCheck: string)
    ensures IsSegmentPrefix(full, toCheck) <==> Split(full, ':') <= Split(toCheck, ':')
  {
    if IsSegmentPrefix(full, toCheck) {
      MatchingKeepsSegments(full, toCheck);
    }
    if Split(full, ':') <= Split(toCheck, ':') {
      SegmentsGiveMatch(full, toCheck);
    }
  }

  /** A matching id begins with the full id's segments. */
  lemma MatchingKeepsSegments(full: string, toCheck: string)
    requires IsSegmentPrefix(full, toCheck)
    ensures Split(full, ':') <= Split(toCheck, ':')
  {
    if toCheck != full {
      var rest := toCheck[|full| + 1..];
      assert toCheck == full + [':'] + rest;
      SplitConcat(full, rest, ':');
    }
  }

  /** An id that begins with the full id's segments matches it. */
  lemma SegmentsGiveMatch(full: string, toCheck: string)
    requires Split(full, ':') <= Split(toCheck, ':')
    ensures IsSegmentPrefix(full, toCheck)
  {
    var f, c := Split(full, ':'), Split(toCheck, ':');
    JoinSplit(full, ':');
    JoinSplit(toCheck, ':');
    var rest := c[|f|..];
    assert c == f + rest;
    if rest != [] {
      JoinConcat(f, rest, ':');
      assert toCheck == full + [':'] + Join(rest, ':');
      assert (full + ":") <= toCheck;
    } else {
      assert c == f;
    }
  }

  /** `idMatches` in terms of segments. */
  lemma IdMatchesBySegments(toCheck: string, prefix: Option<string>, id: Option<string>)
    ensures IdMatches(toCheck, prefix, id) <==> Split(PrefixedId(prefix, id), ':') <= Split(toCheck, ':')
  {
    SegmentPrefixIffSplitPrefix(PrefixedId(prefix, id), toCheck);
  }

  /**
   * Build-then-parse: appending any non-empty, colon-free segments to a full
   * id gives an id that matches it and whose remaining id is those segments.
   */
  lemma RemainingIdRoundTrip(prefix: Option<string>, id: Option<string>, tail: seq<string>)
    requires |tail| >= 1
    requires forall k :: 0 <= k < |tail| ==> tail[k] != "" && ':' !in tail[k]
    ensures IdMatches(PrefixedId(prefix, id) + ":" + Join(tail, ':'), prefix, id)
    ensures RemainingId(PrefixedId(prefix, id) + ":" + Join(tail, ':'), prefix, id) == tail
  {
    var full := PrefixedId(prefix, id);
    var c := full + ":" + Join(tail, ':');
    assert SliceFrom(c, |full| + 1) == Join(tail, ':');
    SplitJoin(tail, ':');
    FilterNonEmptyKeepsNonEmpty(tail);
  }

  /** The two-argument case: `prefixedId(p, i) + ":" + t1 + ":" + t2` gives back `[t1, t2]`. */
  lemma RemainingIdTwoSegments(prefix: Option<string>, id: Option<string>, t1: string, t2: string)
    requires t1 != "" && ':' !in t1 && t2 != "" && ':' !in t2
    ensures IdMatches(PrefixedId(prefix, id) + ":" + t1 + ":" + t2, prefix, id)
    ensures RemainingId(PrefixedId(prefix, id) + ":" + t1 + ":" + t2, prefix, id) == [t1, t2]
  {
    var full := PrefixedId(prefix, id);
    assert full + ":" + t1 + ":" + t2 == full + ":" + Join([t1, t2], ':') by {
      assert [t1, t2][1..] == [t2];
      assert Join([t1, t2], ':') == t1 + ":" + t2;
    }
    RemainingIdRoundTrip(prefix, id, [t1, t2]);
  }

  /** A textual prefix that is not a whole segment does not match. */
  lemma NotSegmentAligned()
    ensures !IdMatches("foobar", Some("foo"), None)
    ensures IdMatches("foo:bar", Some("foo"), None)
  {
    assert "foo:" <= "foo:bar";
    assert "foobar"[3] != "foo:"[3];
  }

  /**
   * The escape lets one handler class address an id of another namespace:
   * the escaped id is used verbatim whatever this class's prefix is.
   */
  lemma EscapeIgnoresPrefix(prefix: Option<string>, other: Option<string>, target: string)
    ensures PrefixedId(prefix, Some("-" + target)) == target
    ensures PrefixedId(prefix, Some("-" + target)) == PrefixedId(other, Some("-" + target))
  {
    assert ("-" + target)[1..] == target;
  }

  // ---------------------------------------------------------------------------
  // Per-class metadata

  /** `DiscordMeta`: the class's interaction handlers and its optional prefix. */
  class DiscordMeta {
    var interaction: seq<HandlerLabel>
    var prefix: Option<string>

    /** `createMeta()` */
    constructor ()
      ensures interaction == [] && prefix == None
    {
      interaction := [];
      prefix := None;
    }
  }

  /** A handler class, reduced to its hidden `META` slot. */
  class HandlerClass {
    var meta: DiscordMeta?

    constructor ()
      ensures meta == null
    {
      meta := null;
    }

    /** `getDiscordMeta(cls)`: `cls[META] ??= createMeta()`. */
    method GetDiscordMeta() returns (m: DiscordMeta)
      modifies this
      ensures meta == m
      ensures old(meta) != null ==> m == old(meta) && unchanged(m)
      ensures old(meta) == null ==> fresh(m) && m.interaction == [] && m.prefix == None
    {
      if meta == null {
        meta := new DiscordMeta();
      }
      m := meta;
    }
  }

  /** Calling `getDiscordMeta` twice yields one and the same metadata object. */
  method GetDiscordMetaIdempotent(cls: HandlerClass) returns (first: DiscordMeta, second: DiscordMeta)
    modifies cls
    ensures first == second == cls.meta
    ensures old(cls.meta) != null ==> first == old(cls.meta)
  {
    first := cls.GetDiscordMeta();
    second := cls.GetDiscordMeta();
  }
}
