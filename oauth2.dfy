/**
 * OAuth2 scopes. Like every `@UnstableEnum`, the scope enum decodes any
 * string: a documented scope string maps to its case, and any other string
 * is kept in the catch-all case `Undocumented(raw)`.
 */
module OAuth2Types {

  /** An OAuth2 scope; raw values are the dotted scope strings. */
  datatype OAuth2Scope =
    | ActivitiesRead
    | ActivitiesWrite
    | ApplicationsBuildsRead
    | ApplicationsBuildsUpload
    | ApplicationsCommands
    | ApplicationsCommandsUpdate
    | ApplicationsCommandsPermissionsUpdate
    | ApplicationsEntitlements
    | ApplicationsStoreUpdate
    | Bot
    | Connections
    | DMChannelsRead
    | Email
    | GDMJoin
    | Guilds
    | GuildsJoin
    | GuildsMembersRead
    | Identify
    | MessagesRead
    | RelationshipsRead
    | Rpc
    | RpcActivitiesWrite
    | RpcNotificationsRead
    | RpcVoiceRead
    | RpcVoiceWrite
    | Voice
    | WebhookIncoming
    | Undocumented(raw: string)
  {
    /** The raw string: a documented scope's is never empty; the catch-all holds its own. */
    function RawValue(): (r: string)
      ensures Undocumented? ==> r == raw
      ensures !Undocumented? ==> r != ""
    {
      match this
      case ActivitiesRead => "activities.read"
      case ActivitiesWrite => "activities.write"
      case ApplicationsBuildsRead => "applications.builds.read"
      case ApplicationsBuildsUpload => "applications.builds.upload"
      case ApplicationsCommands => "applications.commands"
      case ApplicationsCommandsUpdate => "applications.commands.update"
      case ApplicationsCommandsPermissionsUpdate => "applications.commands.permissions.update"
      case ApplicationsEntitlements => "applications.entitlements"
      case ApplicationsStoreUpdate => "applications.store.update"
      case Bot => "bot"
      case Connections => "connections"
      case DMChannelsRead => "dm_channels.read"
      case Email => "email"
      case GDMJoin => "gdm.join"
      case Guilds => "guilds"
      case GuildsJoin => "guilds.join"
      case GuildsMembersRead => "guilds.members.read"
      case Identify => "identify"
      case MessagesRead => "messages.read"
      case RelationshipsRead => "relationships.read"
      case Rpc => "rpc"
      case RpcActivitiesWrite => "rpc.activities.write"
      case RpcNotificationsRead => "rpc.notifications.read"
      case RpcVoiceRead => "rpc.voice.read"
      case RpcVoiceWrite => "rpc.voice.write"
      case Voice => "voice"
      case WebhookIncoming => "webhook.incoming"
      case Undocumented(s) => s
    }

    /**
     * Decoding never fails: a documented scope string gives its scope, and any
     * other string is kept unchanged in the catch-all.
     */
    static function FromRawValue(raw: string): (k: OAuth2Scope)
      ensures k.Undocumented? ==> k.raw == raw
    {
      match raw
      case "activities.read" => ActivitiesRead
      case "activities.write" => ActivitiesWrite
      case "applications.builds.read" => ApplicationsBuildsRead
      case "applications.builds.upload" => ApplicationsBuildsUpload
      case "applications.commands" => ApplicationsCommands
      case "applications.commands.update" => ApplicationsCommandsUpdate
      case "applications.commands.permissions.update" => ApplicationsCommandsPermissionsUpdate
      case "applications.entitlements" => ApplicationsEntitlements
      case "applications.store.update" => ApplicationsStoreUpdate
      case "bot" => Bot
      case "connections" => Connections
      case "dm_channels.read" => DMChannelsRead
      case "email" => Email
      case "gdm.join" => GDMJoin
      case "guilds" => Guilds
      case "guilds.join" => GuildsJoin
      case "guilds.members.read" => GuildsMembersRead
      case "identify" => Identify
      case "messages.read" => MessagesRead
      case "relationships.read" => RelationshipsRead
      case "rpc" => Rpc
      case "rpc.activities.write" => RpcActivitiesWrite
      case "rpc.notifications.read" => RpcNotificationsRead
      case "rpc.voice.read" => RpcVoiceRead
      case "rpc.voice.write" => RpcVoiceWrite
      case "voice" => Voice
      case "webhook.incoming" => WebhookIncoming
      case _ => Undocumented(raw)
    }

    /**
     * The length of every documented scope string. Decoding compares a string
     * against each of them in turn; knowing the lengths up front lets the
     * comparisons with strings of another length be settled at once.
     */
    static lemma ScopeStringLengths()
      ensures
        && |"activities.read"| == 15
        && |"activities.write"| == 16
        && |"applications.builds.read"| == 24
        && |"applications.builds.upload"| == 26
        && |"applications.commands"| == 21
        && |"applications.commands.update"| == 28
        && |"applications.commands.permissions.update"| == 40
        && |"applications.entitlements"| == 25
        && |"applications.store.update"| == 25
        && |"bot"| == 3
        && |"connections"| == 11
        && |"dm_channels.read"| == 16
        && |"email"| == 5
        && |"gdm.join"| == 8
        && |"guilds"| == 6
        && |"guilds.join"| == 11
        && |"guilds.members.read"| == 19
        && |"identify"| == 8
        && |"messages.read"| == 13
        && |"relationships.read"| == 18
        && |"rpc"| == 3
        && |"rpc.activities.write"| == 20
        && |"rpc.notifications.read"| == 22
        && |"rpc.voice.read"| == 14
        && |"rpc.voice.write"| == 15
        && |"voice"| == 5
        && |"webhook.incoming"| == 16
    {
    }

    /** Decoding any string and encoding the result gives the string back. */
    static lemma RawRoundTrip(raw: string)
      ensures FromRawValue(raw).RawValue() == raw
    {
      ScopeStringLengths();
      match FromRawValue(raw)
      case ActivitiesRead => {}
      case ActivitiesWrite => {}
      case ApplicationsBuildsRead => {}
      case ApplicationsBuildsUpload => {}
      case ApplicationsCommands => {}
      case ApplicationsCommandsUpdate => {}
      case ApplicationsCommandsPermissionsUpdate => {}
      case ApplicationsEntitlements => {}
      case ApplicationsStoreUpdate => {}
      case Bot => {}
      case Connections => {}
      case DMChannelsRead => {}
      case Email => {}
      case GDMJoin => {}
      case Guilds => {}
      case GuildsJoin => {}
      case GuildsMembersRead => {}
      case Identify => {}
      case MessagesRead => {}
      case RelationshipsRead => {}
      case Rpc => {}
      case RpcActivitiesWrite => {}
      case RpcNotificationsRead => {}
      case RpcVoiceRead => {}
      case RpcVoiceWrite => {}
      case Voice => {}
      case WebhookIncoming => {}
      case Undocumented(_) => {}
    }

    /** `raw` is the string of a documented scope. */
    static ghost predicate IsDocumentedRaw(raw: string) {
      exists k: OAuth2Scope :: !k.Undocumented? && k.RawValue() == raw
    }

    /** A documented scope survives encoding and decoding. */
    lemma DocumentedRoundTrip()
      requires !Undocumented?
      ensures FromRawValue(RawValue()) == this
    {
      ScopeStringLengths();
      match this
      case ActivitiesRead => {}
      case ActivitiesWrite => {}
      case ApplicationsBuildsRead => {}
      case ApplicationsBuildsUpload => {}
      case ApplicationsCommands => {}
      case ApplicationsCommandsUpdate => {}
      case ApplicationsCommandsPermissionsUpdate => {}
      case ApplicationsEntitlements => {}
      case ApplicationsStoreUpdate => {}
      case Bot => {}
      case Connections => {}
      case DMChannelsRead => {}
      case Email => {}
      case GDMJoin => {}
      case Guilds => {}
      case GuildsJoin => {}
      case GuildsMembersRead => {}
      case Identify => {}
      case MessagesRead => {}
      case RelationshipsRead => {}
      case Rpc => {}
      case RpcActivitiesWrite => {}
      case RpcNotificationsRead => {}
      case RpcVoiceRead => {}
      case RpcVoiceWrite => {}
      case Voice => {}
      case WebhookIncoming => {}
      case Undocumented(_) => {}
    }

    /** Exactly the strings no documented scope carries decode to the catch-all. */
    static lemma DecodesToCatchAllIff(raw: string)
      ensures FromRawValue(raw).Undocumented? <==> !IsDocumentedRaw(raw)
    {
      RawRoundTrip(raw);
      var k := FromRawValue(raw);
      if !k.Undocumented? {
        assert k.RawValue() == raw;
      } else if IsDocumentedRaw(raw) {
        var d: OAuth2Scope :| !d.Undocumented? && d.RawValue() == raw;
        d.DocumentedRoundTrip();
      }
    }

    /**
     * The catch-all survives encoding and decoding exactly when it holds an
     * undocumented string; otherwise decoding gives the documented scope.
     */
    static lemma CatchAllRoundTripIff(raw: string)
      ensures FromRawValue(Undocumented(raw).RawValue()) == Undocumented(raw) <==> !IsDocumentedRaw(raw)
      ensures IsDocumentedRaw(raw) ==> !FromRawValue(raw).Undocumented? && FromRawValue(raw).RawValue() == raw
    {
      DecodesToCatchAllIff(raw);
      RawRoundTrip(raw);
    }

    /** The 27 documented scope strings are pairwise distinct. */
    static lemma RawValueInjective(a: OAuth2Scope, b: OAuth2Scope)
      requires !a.Undocumented? && !b.Undocumented?
      ensures a.RawValue() == b.RawValue() <==> a == b
    {
      a.DocumentedRoundTrip();
      b.DocumentedRoundTrip();
    }
  }
}
