/**
 * Reaction emojis: the partial `Emoji` record, the `Reaction` value built from
 * it, the checks its throwing constructors make, its URL path form and its
 * match against a partial emoji.
 */
module EmojiTypes {
  import opened Wrappers
  import opened UnicodeText

  /** An emoji's snowflake id; the Swift type keeps its decimal digits as a string. */
  datatype EmojiSnowflake = EmojiSnowflake(rawValue: string)

  /**
   * A partial emoji: every field is optional. The `user` field (a whole
   * Discord user) is not part of this model; no operation here reads it.
   */
  datatype Emoji = Emoji(
    id: Option<EmojiSnowflake>,
    name: Option<string>,
    roles: Option<seq<string>>,
    requireColons: Option<bool>,
    managed: Option<bool>,
    animated: Option<bool>,
    available: Option<bool>,
    version: Option<int>)

  /** The errors the throwing constructors of `Reaction` raise. */
  datatype ReactionError =
    | MoreThan1Emoji(input: string, count: int)
    | NotEmoji(input: string)
    | CantConvertEmoji(emoji: Emoji)

  /**
   * A reaction emoji: a Unicode emoji, or a guild's custom emoji named by its
   * id (and, optionally, its name).
   */
  datatype Reaction = Unicode(emoji: string) | Guild(name: Option<string>, id: EmojiSnowflake)
  {
    /**
     * The form a reaction takes in a URL path: the emoji itself, or
     * `name:id` with an empty name when there is none. Cutting a guild path
     * at its last ':' gives back the name and the id, as long as the id holds
     * no ':' (a snowflake is decimal digits).
     */
    function UrlPathDescription(): (r: string)
      ensures Unicode? ==> r == emoji
      ensures Guild? && ':' !in id.rawValue ==> SplitAtLastColon(r) == Some((name.GetOr(""), id.rawValue))
    {
      match this
      case Unicode(e) => e
      case Guild(n, id) =>
        var path := n.GetOr("") + ":" + id.rawValue;
        if ':' in id.rawValue then path
        else
          SplitRecoversParts(n.GetOr(""), id.rawValue);
          path
    }

    /**
     * Whether this reaction is the given partial emoji: a Unicode reaction
     * matches exactly the emojis whose name is equal to its string under
     * Swift's `String ==` (canonical equivalence), so never a nameless one;
     * a guild reaction matches exactly the emojis with its id. With
     * well-formed tables a Unicode reaction matches the emoji named by its
     * own string.
     */
    function Is(e: Emoji, t: UnicodeTables): (b: bool)
      ensures Unicode? ==> (b <==> e.name.Some? && t.equivalent(emoji, e.name.value))
      ensures Unicode? && e.name == Some(emoji) && WellFormed(t) ==> b
      ensures Guild? ==> (b <==> e.id == Some(id))
    {
      match this
      case Unicode(u) => e.name.Some? && t.equivalent(u, e.name.value)
      case Guild(_, id) => e.id == Some(id)
    }
  }

  /**
   * `Reaction.unicodeEmoji(_:)`: accepts a string of exactly one Character of
   * which some scalar has the Emoji property. The Character count is checked
   * first; its error reports the number of Unicode scalars.
   */
  function UnicodeEmoji(s: string, t: UnicodeTables): (r: Result<Reaction, ReactionError>)
    ensures r.Success? <==> t.characterCount(s) == 1 && exists i :: 0 <= i < |s| && t.isEmoji(s[i])
    ensures r.Success? ==> r.value == Unicode(s)
    ensures t.characterCount(s) != 1 ==> r == Failure(MoreThan1Emoji(s, |s|))
    ensures t.characterCount(s) == 1 && r.Failure? ==> r.error == NotEmoji(s)
  {
    if t.characterCount(s) != 1 then Failure(MoreThan1Emoji(s, |s|))
    else if !ContainsScalar(s, t.isEmoji) then Failure(NotEmoji(s))
    else Success(Unicode(s))
  }

  /** `Reaction.guildEmoji(name:id:)`: never fails; the reaction is matched by the id alone. */
  function GuildEmoji(name: Option<string>, id: EmojiSnowflake): (r: Reaction)
    ensures r.Guild? && r.name == name && r.id == id
    ensures forall e: Emoji, t: UnicodeTables :: r.Is(e, t) <==> e.id == Some(id)
  {
    Guild(name, id)
  }

  /**
   * `Reaction(emoji:)`: an emoji with an id becomes a guild reaction without
   * any Unicode check; one with only a name must pass `UnicodeEmoji`; one with
   * neither cannot be converted. Whatever it builds matches the emoji it came
   * from (for a Unicode reaction, because every string is equivalent to itself).
   */
  function FromEmoji(e: Emoji, t: UnicodeTables): (r: Result<Reaction, ReactionError>)
    ensures r.Success? && WellFormed(t) ==> r.value.Is(e, t)
    ensures e.id.Some? ==> r == Success(Guild(e.name, e.id.value))
    ensures e.id.None? && e.name.Some? ==> r == UnicodeEmoji(e.name.value, t)
    ensures r == Failure(CantConvertEmoji(e)) <==> e.id.None? && e.name.None?
  {
    match e.id
    case Some(id) => Success(GuildEmoji(e.name, id))
    case None =>
      match e.name
      case Some(n) => UnicodeEmoji(n, t)
      case None => Failure(CantConvertEmoji(e))
  }

  /**
   * Cuts a path at its last ':' into what comes before and what comes after;
   * `None` when it holds no ':'.
   */
  function SplitAtLastColon(p: string): (r: Option<(string, string)>)
    ensures r.None? <==> ':' !in p
    ensures r.Some? ==> r.value.0 + ":" + r.value.1 == p && ':' !in r.value.1
    decreases |p|
  {
    if p == [] then None
    else if p[|p| - 1] == ':' then Some((p[..|p| - 1], ""))
    else
      var front := p[..|p| - 1];
      assert p == front + [p[|p| - 1]];
      match SplitAtLastColon(front)
      case None => None
      case Some((before, after)) =>
        assert before + ":" + (after + [p[|p| - 1]]) == (before + ":" + after) + [p[|p| - 1]];
        Some((before, after + [p[|p| - 1]]))
  }

  /** Joining two parts with ':' and cutting at the last ':' gives them back when the second holds no ':'. */
  lemma {:induction false} SplitRecoversParts(before: string, after: string)
    requires ':' !in after
    ensures SplitAtLastColon(before + ":" + after) == Some((before, after))
    decreases |after|
  {
    var p := before + ":" + after;
    if after != [] {
      var last := after[|after| - 1];
      var shorter := after[..|after| - 1];
      assert after == shorter + [last];
      assert p == (before + ":" + shorter) + [last];
      assert p[..|p| - 1] == before + ":" + shorter;
      SplitRecoversParts(before, shorter);
    } else {
      assert p[..|p| - 1] == before;
    }
  }

  /** The empty string holds no Character, so it fails the count check, with count 0. */
  lemma EmptyStringIsNotOneEmoji(t: UnicodeTables)
    requires WellFormed(t)
    ensures UnicodeEmoji("", t) == Failure(MoreThan1Emoji("", 0))
  {
  }

  /** A single scalar is a single Character, so only the Emoji property decides. */
  lemma SingleScalarNeedsOnlyEmojiProperty(c: char, t: UnicodeTables)
    requires WellFormed(t)
    ensures UnicodeEmoji([c], t) == if t.isEmoji(c) then Success(Unicode([c])) else Failure(NotEmoji([c]))
  {
    assert [c] != "";
    assert [c][0] == c;
  }

  /**
   * The count in `MoreThan1Emoji` is a scalar count and is never 1: a string
   * of one scalar is one Character and passes the count check.
   */
  lemma MoreThan1EmojiCountIsNeverOne(s: string, t: UnicodeTables)
    requires WellFormed(t)
    requires UnicodeEmoji(s, t).Failure? && UnicodeEmoji(s, t).error.MoreThan1Emoji?
    ensures UnicodeEmoji(s, t).error.count != 1
  {
  }

  /** A guild reaction's name takes no part in matching. */
  lemma IsIgnoresGuildName(name1: Option<string>, name2: Option<string>, id: EmojiSnowflake, e: Emoji, t: UnicodeTables)
    ensures Guild(name1, id).Is(e, t) == Guild(name2, id).Is(e, t)
  {
  }

  /** A Unicode reaction's match reads only the emoji's name, never its id. */
  lemma IsUnicodeIgnoresId(u: string, e1: Emoji, e2: Emoji, t: UnicodeTables)
    requires e1.name == e2.name
    ensures Unicode(u).Is(e1, t) == Unicode(u).Is(e2, t)
  {
  }

  /** Matching reads only the emoji's id and name. */
  lemma IsReadsOnlyIdAndName(r: Reaction, e1: Emoji, e2: Emoji, t: UnicodeTables)
    requires e1.id == e2.id && e1.name == e2.name
    ensures r.Is(e1, t) == r.Is(e2, t)
  {
  }

  /** A guild emoji without a name and one with an empty name share one URL path. */
  lemma MissingAndEmptyNameShareAPath(id: EmojiSnowflake)
    ensures Guild(None, id).UrlPathDescription() == Guild(Some(""), id).UrlPathDescription()
  {
  }
}
