/**
 * The raw-value enums of a Discord user and of a user's connections, and the
 * validation of an application role connection.
 *
 * Each enum marked `@UnstableEnum` in Swift decodes every raw value: the
 * documented raw values map to their cases, and any other value is kept in
 * the catch-all case `Undocumented(raw)`, so decoding never fails when Discord
 * adds a value. `RawValue()` is Swift's `rawValue` and `FromRawValue` its
 * `init(rawValue:)`; the documented raw value of each case is the one its
 * declaration carries in a trailing comment.
 */
module UserTypes {
  import Wrappers
  import opened UnicodeText
  import opened Validation

  /** A user's Nitro subscription kind; raw values are `Int`. */
  datatype PremiumKind = None | NitroClassic | Nitro | NitroBasic | Undocumented(raw: int)
  {
    /** The raw value: a documented kind is one of 0 through 3; the catch-all holds its own. */
    function RawValue(): (r: int)
      ensures Undocumented? ==> r == raw
      ensures !Undocumented? ==> 0 <= r <= 3
    {
      match this
      case None => 0
      case NitroClassic => 1
      case Nitro => 2
      case NitroBasic => 3
      case Undocumented(n) => n
    }

    /** Decoding never fails, and re-encoding gives back the raw value. */
    static function FromRawValue(raw: int): (k: PremiumKind)
      ensures k.RawValue() == raw
    {
      match raw
      case 0 => PremiumKind.None
      case 1 => NitroClassic
      case 2 => Nitro
      case 3 => NitroBasic
      case _ => PremiumKind.Undocumented(raw)
    }

    /** `raw` is the raw value of a documented case. */
    static ghost predicate IsDocumentedRaw(raw: int) {
      exists k: PremiumKind :: !k.Undocumented? && k.RawValue() == raw
    }

    /** A documented case survives encoding and decoding. */
    lemma DocumentedRoundTrip()
      requires !Undocumented?
      ensures FromRawValue(RawValue()) == this
    {
    }

    /** Exactly the raw values no documented case carries decode to the catch-all. */
    static lemma DecodesToCatchAllIff(raw: int)
      ensures FromRawValue(raw).Undocumented? <==> !IsDocumentedRaw(raw)
    {
      if IsDocumentedRaw(raw) {
        var k: PremiumKind :| !k.Undocumented? && k.RawValue() == raw;
        k.DocumentedRoundTrip();
      }
    }

    /** The catch-all survives encoding and decoding exactly when it holds an undocumented value. */
    static lemma CatchAllRoundTripIff(raw: int)
      ensures FromRawValue(PremiumKind.Undocumented(raw).RawValue()) == PremiumKind.Undocumented(raw) <==> !IsDocumentedRaw(raw)
    {
      DecodesToCatchAllIff(raw);
    }

    /** The documented raw values are pairwise distinct. */
    static lemma RawValueInjective(a: PremiumKind, b: PremiumKind)
      requires !a.Undocumented? && !b.Undocumented?
      ensures a.RawValue() == b.RawValue() <==> a == b
    {
      a.DocumentedRoundTrip();
      b.DocumentedRoundTrip();
    }
  }

  /** A user flag, given by its bit position; raw values are `UInt`. */
  datatype Flag =
    | Staff
    | Partner
    | HypeSquad
    | BugHunterLevel1
    | HypeSquadOnlineHouse1
    | HypeSquadOnlineHouse2
    | HypeSquadOnlineHouse3
    | PremiumEarlySupporter
    | TeamPseudoUser
    | BugHunterLevel2
    | VerifiedBot
    | VerifiedDeveloper
    | CertifiedModerator
    | BotHttpInteractions
    | ActiveDeveloper
    | Undocumented(raw: nat)
  {
    /**
     * The bit position: a documented flag sits at or below position 22 and
     * never at one of the positions the list skips; the catch-all holds its own.
     */
    function RawValue(): (r: nat)
      ensures Undocumented? ==> r == raw
      ensures !Undocumented? ==> r <= 22 && r !in {4, 5, 11, 12, 13, 15, 20, 21}
    {
      match this
      case Staff => 0
      case Partner => 1
      case HypeSquad => 2
      case BugHunterLevel1 => 3
      case HypeSquadOnlineHouse1 => 6
      case HypeSquadOnlineHouse2 => 7
      case HypeSquadOnlineHouse3 => 8
      case PremiumEarlySupporter => 9
      case TeamPseudoUser => 10
      case BugHunterLevel2 => 14
      case VerifiedBot => 16
      case VerifiedDeveloper => 17
      case CertifiedModerator => 18
      case BotHttpInteractions => 19
      case ActiveDeveloper => 22
      case Undocumented(n) => n
    }

    /** Decoding never fails, and re-encoding gives back the raw value. */
    static function FromRawValue(raw: nat): (k: Flag)
      ensures k.RawValue() == raw
    {
      match raw
      case 0 => Staff
      case 1 => Partner
      case 2 => HypeSquad
      case 3 => BugHunterLevel1
      case 6 => HypeSquadOnlineHouse1
      case 7 => HypeSquadOnlineHouse2
      case 8 => HypeSquadOnlineHouse3
      case 9 => PremiumEarlySupporter
      case 10 => TeamPseudoUser
      case 14 => BugHunterLevel2
      case 16 => VerifiedBot
      case 17 => VerifiedDeveloper
      case 18 => CertifiedModerator
      case 19 => BotHttpInteractions
      case 22 => ActiveDeveloper
      case _ => Flag.Undocumented(raw)
    }

    /** `raw` is the bit position of a documented flag. */
    static ghost predicate IsDocumentedRaw(raw: nat) {
      exists k: Flag :: !k.Undocumented? && k.RawValue() == raw
    }

    /** A documented flag survives encoding and decoding. */
    lemma DocumentedRoundTrip()
      requires !Undocumented?
      ensures FromRawValue(RawValue()) == this
    {
    }

    /** Exactly the bit positions no documented flag carries decode to the catch-all. */
    static lemma DecodesToCatchAllIff(raw: nat)
      ensures FromRawValue(raw).Undocumented? <==> !IsDocumentedRaw(raw)
    {
      if IsDocumentedRaw(raw) {
        var k: Flag :| !k.Undocumented? && k.RawValue() == raw;
        k.DocumentedRoundTrip();
      }
    }

    /** The catch-all survives encoding and decoding exactly when it holds an undocumented position. */
    static lemma CatchAllRoundTripIff(raw: nat)
      ensures FromRawValue(Flag.Undocumented(raw).RawValue()) == Flag.Undocumented(raw) <==> !IsDocumentedRaw(raw)
    {
      DecodesToCatchAllIff(raw);
    }

    /** No two documented flags share a bit position. */
    static lemma RawValueInjective(a: Flag, b: Flag)
      requires !a.Undocumented? && !b.Undocumented?
      ensures a.RawValue() == b.RawValue() <==> a == b
    {
      a.DocumentedRoundTrip();
      b.DocumentedRoundTrip();
    }

    /** The gaps in the documented positions (4, 5, 11 and 15 among them) are undocumented. */
    static lemma UnlistedPositionsAreUndocumented()
      ensures !IsDocumentedRaw(4) && !IsDocumentedRaw(5) && !IsDocumentedRaw(11) && !IsDocumentedRaw(15)
    {
      DecodesToCatchAllIff(4);
      DecodesToCatchAllIff(5);
      DecodesToCatchAllIff(11);
      DecodesToCatchAllIff(15);
    }
  }

  /**
   * The service behind a user's connection; raw values are `String`, the
   * display names the declarations carry.
   */
  datatype ConnectionService =
    | BattleNet
    | Bungie
    | Domain
    | Ebay
    | EpicGames
    | Facebook
    | Github
    | Instagram
    | LeagueOfLegends
    | Paypal
    | Playstation
    | Reddit
    | RiotGames
    | Spotify
    | Skype
    | Steam
    | TikTok
    | Twitch
    | Twitter
    | Xbox
    | Youtube
    | Undocumented(raw: string)
  {
    /** The raw string: a documented service's is never empty; the catch-all holds its own. */
    function RawValue(): (r: string)
      ensures Undocumented? ==> r == raw
      ensures !Undocumented? ==> r != ""
    {
      match this
      case BattleNet => "Battle.net"
      case Bungie => "Bungie.net"
      case Domain => "Domain"
      case Ebay => "eBay"
      case EpicGames => "Epic Games"
      case Facebook => "Facebook"
      case Github => "GitHub"
      case Instagram => "Instagram"
      case LeagueOfLegends => "League of Legends"
      case Paypal => "PayPal"
      case Playstation => "PlayStation Network"
      case Reddit => "Reddit"
      case RiotGames => "Riot Games"
      case Spotify => "Spotify"
      case Skype => "Skype"
      case Steam => "Steam"
      case TikTok => "TikTok"
      case Twitch => "Twitch"
      case Twitter => "Twitter"
      case Xbox => "Xbox"
      case Youtube => "YouTube"
      case Undocumented(s) => s
    }

    /** Decoding never fails, and re-encoding gives back the raw string. */
    static function FromRawValue(raw: string): (k: ConnectionService)
      ensures k.RawValue() == raw
    {
      match raw
      case "Battle.net" => BattleNet
      case "Bungie.net" => Bungie
      case "Domain" => Domain
      case "eBay" => Ebay
      case "Epic Games" => EpicGames
      case "Facebook" => Facebook
      case "GitHub" => Github
      case "Instagram" => Instagram
      case "League of Legends" => LeagueOfLegends
      case "PayPal" => Paypal
      case "PlayStation Network" => Playstation
      case "Reddit" => Reddit
      case "Riot Games" => RiotGames
      case "Spotify" => Spotify
      case "Skype" => Skype
      case "Steam" => Steam
      case "TikTok" => TikTok
      case "Twitch" => Twitch
      case "Twitter" => Twitter
      case "Xbox" => Xbox
      case "YouTube" => Youtube
      case _ => ConnectionService.Undocumented(raw)
    }

    /** `raw` is the display name of a documented service. */
    static ghost predicate IsDocumentedRaw(raw: string) {
      exists k: ConnectionService :: !k.Undocumented? && k.RawValue() == raw
    }

    /** A documented service survives encoding and decoding. */
    lemma DocumentedRoundTrip()
      requires !Undocumented?
      ensures FromRawValue(RawValue()) == this
    {
    }

    /** Exactly the strings no documented service carries decode to the catch-all. */
    static lemma DecodesToCatchAllIff(raw: string)
      ensures FromRawValue(raw).Undocumented? <==> !IsDocumentedRaw(raw)
    {
      if IsDocumentedRaw(raw) {
        var k: ConnectionService :| !k.Undocumented? && k.RawValue() == raw;
        k.DocumentedRoundTrip();
      }
    }

    /** The catch-all survives encoding and decoding exactly when it holds an undocumented string. */
    static lemma CatchAllRoundTripIff(raw: string)
      ensures FromRawValue(ConnectionService.Undocumented(raw).RawValue()) == ConnectionService.Undocumented(raw) <==> !IsDocumentedRaw(raw)
    {
      DecodesToCatchAllIff(raw);
    }

    /** No two documented services share a display name. */
    static lemma RawValueInjective(a: ConnectionService, b: ConnectionService)
      requires !a.Undocumented? && !b.Undocumented?
      ensures a.RawValue() == b.RawValue() <==> a == b
    {
      a.DocumentedRoundTrip();
      b.DocumentedRoundTrip();
    }
  }

  /** Who can see a user's connection; raw values are `Int`. */
  datatype VisibilityKind = None | Everyone | Undocumented(raw: int)
  {
    /** The raw value: a documented visibility is 0 or 1; the catch-all holds its own. */
    function RawValue(): (r: int)
      ensures Undocumented? ==> r == raw
      ensures !Undocumented? ==> r == 0 || r == 1
    {
      match this
      case None => 0
      case Everyone => 1
      case Undocumented(n) => n
    }

    /** Decoding never fails, and re-encoding gives back the raw value. */
    static function FromRawValue(raw: int): (k: VisibilityKind)
      ensures k.RawValue() == raw
    {
      match raw
      case 0 => VisibilityKind.None
      case 1 => Everyone
      case _ => VisibilityKind.Undocumented(raw)
    }

    /** `raw` is the raw value of a documented visibility. */
    static ghost predicate IsDocumentedRaw(raw: int) {
      exists k: VisibilityKind :: !k.Undocumented? && k.RawValue() == raw
    }

    /** A documented visibility survives encoding and decoding. */
    lemma DocumentedRoundTrip()
      requires !Undocumented?
      ensures FromRawValue(RawValue()) == this
    {
    }

    /** Exactly the raw values other than 0 and 1 decode to the catch-all. */
    static lemma DecodesToCatchAllIff(raw: int)
      ensures FromRawValue(raw).Undocumented? <==> !IsDocumentedRaw(raw)
      ensures IsDocumentedRaw(raw) <==> raw == 0 || raw == 1
    {
      if IsDocumentedRaw(raw) {
        var k: VisibilityKind :| !k.Undocumented? && k.RawValue() == raw;
        k.DocumentedRoundTrip();
      } else {
        assert VisibilityKind.None.RawValue() == 0 && Everyone.RawValue() == 1;
      }
    }

    /** The catch-all survives encoding and decoding exactly when it holds an undocumented value. */
    static lemma CatchAllRoundTripIff(raw: int)
      ensures FromRawValue(VisibilityKind.Undocumented(raw).RawValue()) == VisibilityKind.Undocumented(raw) <==> !IsDocumentedRaw(raw)
    {
      DecodesToCatchAllIff(raw);
    }

    /** The documented raw values are distinct. */
    static lemma RawValueInjective(a: VisibilityKind, b: VisibilityKind)
      requires !a.Undocumented? && !b.Undocumented?
      ensures a.RawValue() == b.RawValue() <==> a == b
    {
      a.DocumentedRoundTrip();
      b.DocumentedRoundTrip();
    }
  }

  /**
   * An application's role connection for a user. The metadata values are
   * kept as their JSON text: their record type is not part of this model and
   * validation does not look at them.
   */
  datatype ApplicationRoleConnection = ApplicationRoleConnection(
    platformName: Wrappers.Option<string>,
    platformUsername: Wrappers.Option<string>,
    metadata: map<string, string>)
  {
    /**
     * `validate()`: the platform name may hold at most 50 Characters and the
     * platform username at most 100; a missing field passes, and the failures
     * come in that order.
     */
    function Validate(t: UnicodeTables): (r: seq<ValidationFailure>)
      ensures TooManyCharacters("platform_name", 50) in r
          <==> platformName.Some? && t.characterCount(platformName.value) > 50
      ensures TooManyCharacters("platform_username", 100) in r
          <==> platformUsername.Some? && t.characterCount(platformUsername.value) > 100
      ensures forall f :: f in r ==> f == TooManyCharacters("platform_name", 50) || f == TooManyCharacters("platform_username", 100)
      ensures |r| <= 2
      ensures r == [] <==>
                && (platformName.Some? ==> t.characterCount(platformName.value) <= 50)
                && (platformUsername.Some? ==> t.characterCount(platformUsername.value) <= 100)
      ensures |r| == 2 ==> r == [TooManyCharacters("platform_name", 50), TooManyCharacters("platform_username", 100)]
    {
      var nameCheck := ValidateCharacterCountDoesNotExceed(platformName, 50, "platform_name", t);
      var usernameCheck := ValidateCharacterCountDoesNotExceed(platformUsername, 100, "platform_username", t);
      CollectAppend([nameCheck], [usernameCheck]);
      Collect([nameCheck, usernameCheck])
    }
  }

  /** Validation does not depend on the metadata. */
  lemma ValidateIgnoresMetadata(c: ApplicationRoleConnection, metadata: map<string, string>, t: UnicodeTables)
    ensures c.(metadata := metadata).Validate(t) == c.Validate(t)
  {
  }

  /**
   * Fields of at most 50 and 100 Unicode scalars always pass, whatever the
   * segmentation: a Character holds at least one scalar.
   */
  lemma ShortFieldsPass(c: ApplicationRoleConnection, t: UnicodeTables)
    requires WellFormed(t)
    requires c.platformName.Some? ==> |c.platformName.value| <= 50
    requires c.platformUsername.Some? ==> |c.platformUsername.value| <= 100
    ensures c.Validate(t) == []
  {
    if c.platformName.Some? {
      var s := c.platformName.value;
      assert s == "" || t.characterCount(s) <= |s|;
    }
    if c.platformUsername.Some? {
      var s := c.platformUsername.value;
      assert s == "" || t.characterCount(s) <= |s|;
    }
  }
}
