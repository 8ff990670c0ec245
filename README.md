# Discord models: reactions, stable enums and role-connection validation

This project is a Dafny model of three value-level pieces of a Swift Discord
library, with proofs of what each one promises.

- **Reaction emojis** (`Sources/DiscordModels/Types/Emoji.swift`). A
  `Reaction` is either a Unicode emoji or a guild's custom emoji, which has an
  optional name and an id. The model covers:
  - its two throwing factory functions, `unicodeEmoji(_:)` and
    `init(emoji:)`, and the non-throwing `guildEmoji(name:id:)`;
  - `urlPathDescription`, the form a reaction takes in a URL path;
  - `is(_:)`, which matches a reaction against a partial `Emoji`.
- **Stable raw-value enums** (`User.swift`, `OAuth2.swift`). These are the
  enums marked `@UnstableEnum`: `DiscordUser.PremiumKind`, `DiscordUser.Flag`,
  `DiscordUser.Connection.Service`, `DiscordUser.Connection.VisibilityKind`
  and `OAuth2Scope`.
  - Each one decodes every raw value. A documented raw value gives its case.
    Any other value is kept in a catch-all case, which the model calls
    `Undocumented`.
  - Each raw value is the one written next to its case in the source.
- **`ApplicationRoleConnection.validate()`** (`User.swift`). It reports a
  failure when `platform_name` has more than 50 Characters or
  `platform_username` has more than 100. A missing field passes. The metadata
  is not looked at.

Modules:

| file | module | what it holds |
|---|---|---|
| `wrappers.dfy` | `Wrappers` | `Option` for Swift optionals, `Result` for throwing functions |
| `unicode_text.dfy` | `UnicodeText` | the grapheme count and the Emoji property as parameters; `ContainsScalar` |
| `emoji.dfy` | `EmojiTypes` | `Emoji`, `Reaction`, `ReactionError` and their operations |
| `validation.dfy` | `Validation` | `ValidationFailure`, the character-count check and the failure builder |
| `user.dfy` | `UserTypes` | the four user enums and `ApplicationRoleConnection` |
| `oauth2.dfy` | `OAuth2Types` | `OAuth2Scope` |

How Unicode is handled:
- A Dafny `string` is a sequence of Unicode scalar values. So Swift's
  `unicodeScalars.count` is the sequence length.
- Three facts come from the Unicode tables, and all three are passed in as a
  `UnicodeTables` value:
  - Swift's `String.count`, which counts extended grapheme clusters;
  - `Unicode.Scalar.Properties.isEmoji`;
  - Swift's `String ==`, which holds between canonically equivalent strings
    (for example, the same combining marks written in another canonical order).
    `Reaction.Is` compares a Unicode reaction with an emoji's name through it.
- Lemmas that need the basic facts of these tables require `WellFormed`. Those
  facts are:
  - the empty string has no Character;
  - a non-empty string has at least one Character and at most one per scalar;
  - every string is equivalent to itself.
- The string raw-value decoders compare scalar sequences. They are not
  affected by canonical equivalence, because no documented raw string has a
  different but canonically equivalent scalar sequence. Every documented raw
  string is ASCII and contains none of `K`, `;` and `` ` ``. Those are the only
  ASCII characters that another scalar decomposes to canonically (U+212A,
  U+037E, U+1FEF).
- A guild reaction compares snowflake ids as scalar sequences too. For
  decimal-digit ids this agrees with `String ==`, because none of those three
  scalars decomposes to a digit.

Each enum is a datatype with two members:
- `RawValue()`, the macro's `rawValue`;
- `FromRawValue(raw)`, the macro's `init(rawValue:)`.

The same five facts are proved about every enum:
- decoding any raw value and re-encoding it gives the raw value back;
- a documented case survives encoding and then decoding;
- documented raw values are pairwise distinct;
- a value decodes to the catch-all exactly when no documented case carries it;
- the catch-all round-trips exactly when its value is undocumented.

## Model

| member | source | states |
|---|---|---|
| EmojiTypes.UnicodeEmoji | Sources/DiscordModels/Types/Emoji.swift:90-98 | succeeds exactly when the string is one Character and some scalar has the Emoji property, and then gives a Unicode reaction of that string; a Character count other than 1 fails first, with `moreThan1Emoji` carrying the scalar count; otherwise the failure is `notEmoji` |
| EmojiTypes.GuildEmoji | Sources/DiscordModels/Types/Emoji.swift:101-103 | never fails; keeps the name and id; the reaction is any emoji whose id is that id, whatever the name |
| EmojiTypes.FromEmoji | Sources/DiscordModels/Types/Emoji.swift:105-113 | an emoji with an id becomes a guild reaction with no Unicode check; one with only a name goes through `UnicodeEmoji`; it fails with `cantConvertEmoji` exactly when both are missing; whatever it builds matches the emoji it came from under `Is`, given tables in which every string is equivalent to itself |
| EmojiTypes.Reaction.Is | Sources/DiscordModels/Types/Emoji.swift:116-121 | a guild reaction matches exactly the emojis with its id; a Unicode reaction matches exactly the emojis that have a name canonically equivalent to its string (equivalence is a parameter), so never a nameless one; given tables in which every string is equivalent to itself, it matches the emoji named by its own string |
| EmojiTypes.IsUnicodeIgnoresId | Sources/DiscordModels/Types/Emoji.swift:118 | two emojis with the same name are matched alike by a Unicode reaction, whatever their ids |
| EmojiTypes.Reaction.UrlPathDescription | Sources/DiscordModels/Types/Emoji.swift:50-55 | a Unicode reaction's path is the emoji itself; a guild reaction's path, cut at its last ':', gives back the name (empty when missing) and the id, when the id holds no ':' |
| EmojiTypes.SplitAtLastColon | Sources/DiscordModels/Types/Emoji.swift:53 | the inverse used to state the guild path: it finds no ':' exactly when there is none; otherwise the two parts joined with ':' are the input, and the second part holds no ':' |
| EmojiTypes.SplitRecoversParts | Sources/DiscordModels/Types/Emoji.swift:53 | `name:id` cut at its last ':' gives back `name` and `id` when `id` holds no ':' |
| EmojiTypes.MissingAndEmptyNameShareAPath | Sources/DiscordModels/Types/Emoji.swift:53 | a missing guild-emoji name and an empty one give the same path |
| EmojiTypes.EmptyStringIsNotOneEmoji | Sources/DiscordModels/Types/Emoji.swift:91-93 | the empty string fails the count check, reporting count 0 |
| EmojiTypes.SingleScalarNeedsOnlyEmojiProperty | Sources/DiscordModels/Types/Emoji.swift:91-97 | a single scalar passes the count check, so only its Emoji property decides |
| EmojiTypes.MoreThan1EmojiCountIsNeverOne | Sources/DiscordModels/Types/Emoji.swift:91-93 | the count that `moreThan1Emoji` reports is never 1 |
| EmojiTypes.IsIgnoresGuildName | Sources/DiscordModels/Types/Emoji.swift:116-121 | two guild reactions with the same id match the same emojis, whatever their names |
| EmojiTypes.IsReadsOnlyIdAndName | Sources/DiscordModels/Types/Emoji.swift:116-121 | two emojis with the same id and name are matched alike by every reaction |
| UnicodeText.ContainsScalar | Sources/DiscordModels/Types/Emoji.swift:94 | true exactly when some scalar of the string satisfies the predicate |
| UserTypes.PremiumKind.RawValue | Sources/DiscordModels/Types/User.swift:7-11 | a documented kind encodes as one of 0 through 3; the catch-all encodes as the integer it holds |
| UserTypes.PremiumKind.FromRawValue | Sources/DiscordModels/Types/User.swift:5-12 | every integer decodes, and re-encoding gives it back |
| UserTypes.PremiumKind.DocumentedRoundTrip | Sources/DiscordModels/Types/User.swift:7-10 | each of the four documented kinds survives encoding and then decoding |
| UserTypes.PremiumKind.DecodesToCatchAllIff | Sources/DiscordModels/Types/User.swift:5-12 | an integer decodes to the catch-all exactly when no documented kind has it |
| UserTypes.PremiumKind.CatchAllRoundTripIff | Sources/DiscordModels/Types/User.swift:11 | the catch-all survives encoding and decoding exactly when its integer is undocumented |
| UserTypes.PremiumKind.RawValueInjective | Sources/DiscordModels/Types/User.swift:7-10 | documented kinds have equal raw values only when they are the same kind |
| UserTypes.Flag.RawValue | Sources/DiscordModels/Types/User.swift:17-32 | a documented flag sits at bit position 22 or below, never at one of the skipped positions 4, 5, 11, 12, 13, 15, 20 and 21; the catch-all encodes as the position it holds |
| UserTypes.Flag.FromRawValue | Sources/DiscordModels/Types/User.swift:15-33 | every bit position decodes, and re-encoding gives it back |
| UserTypes.Flag.DocumentedRoundTrip | Sources/DiscordModels/Types/User.swift:17-31 | each of the 15 documented flags survives encoding and then decoding |
| UserTypes.Flag.DecodesToCatchAllIff | Sources/DiscordModels/Types/User.swift:15-33 | a position decodes to the catch-all exactly when no documented flag has it |
| UserTypes.Flag.CatchAllRoundTripIff | Sources/DiscordModels/Types/User.swift:32 | the catch-all survives encoding and decoding exactly when its position is undocumented |
| UserTypes.Flag.RawValueInjective | Sources/DiscordModels/Types/User.swift:17-31 | documented flags have equal bit positions only when they are the same flag |
| UserTypes.Flag.UnlistedPositionsAreUndocumented | Sources/DiscordModels/Types/User.swift:20-27 | positions 4, 5, 11 and 15, skipped in the list, belong to no documented flag |
| UserTypes.ConnectionService.RawValue | Sources/DiscordModels/Types/User.swift:122-143 | no documented service encodes as the empty string; the catch-all encodes as the string it holds |
| UserTypes.ConnectionService.FromRawValue | Sources/DiscordModels/Types/User.swift:120-144 | every string decodes, and re-encoding gives it back |
| UserTypes.ConnectionService.DocumentedRoundTrip | Sources/DiscordModels/Types/User.swift:122-142 | each of the 21 documented services survives encoding and then decoding |
| UserTypes.ConnectionService.DecodesToCatchAllIff | Sources/DiscordModels/Types/User.swift:120-144 | a string decodes to the catch-all exactly when no documented service has it |
| UserTypes.ConnectionService.CatchAllRoundTripIff | Sources/DiscordModels/Types/User.swift:143 | the catch-all survives encoding and decoding exactly when its string is undocumented |
| UserTypes.ConnectionService.RawValueInjective | Sources/DiscordModels/Types/User.swift:122-142 | the 21 service names are pairwise distinct |
| UserTypes.VisibilityKind.RawValue | Sources/DiscordModels/Types/User.swift:149-151 | a documented visibility encodes as 0 or 1; the catch-all encodes as the integer it holds |
| UserTypes.VisibilityKind.FromRawValue | Sources/DiscordModels/Types/User.swift:147-152 | every integer decodes, and re-encoding gives it back |
| UserTypes.VisibilityKind.DocumentedRoundTrip | Sources/DiscordModels/Types/User.swift:149-150 | `none` and `everyone` survive encoding and then decoding |
| UserTypes.VisibilityKind.DecodesToCatchAllIff | Sources/DiscordModels/Types/User.swift:147-152 | exactly the integers other than 0 and 1 decode to the catch-all |
| UserTypes.VisibilityKind.CatchAllRoundTripIff | Sources/DiscordModels/Types/User.swift:151 | the catch-all survives encoding and decoding exactly when its integer is neither 0 nor 1 |
| UserTypes.VisibilityKind.RawValueInjective | Sources/DiscordModels/Types/User.swift:149-150 | the two documented kinds have different raw values |
| UserTypes.ApplicationRoleConnection.Validate | Sources/DiscordModels/Types/User.swift:172-175 | the `platform_name` failure (limit 50) is reported exactly when the name is present and has more than 50 Characters; the `platform_username` failure (limit 100) likewise, with limit 100; nothing else is reported; when both fail, the name failure comes first |
| UserTypes.ValidateIgnoresMetadata | Sources/DiscordModels/Types/User.swift:170-175 | replacing the metadata never changes the result of validation |
| UserTypes.ShortFieldsPass | Sources/DiscordModels/Types/User.swift:172-175 | a name of at most 50 scalars and a username of at most 100 always pass, whatever the segmentation |
| Validation.ValidateCharacterCountDoesNotExceed | Sources/DiscordModels/Types/User.swift:173-174 | reports one failure, with the field's name and limit, exactly when the value is present and has more Characters than the limit |
| Validation.Collect | Sources/DiscordModels/Types/User.swift:172-175 | the failures gathered are exactly those the checks report, never more than there are checks |
| Validation.CollectAppend | Sources/DiscordModels/Types/User.swift:172-175 | gathering two groups of checks one after the other gives their failures in the same order |
| OAuth2Types.OAuth2Scope.RawValue | Sources/DiscordModels/Types/OAuth2.swift:5-32 | no documented scope encodes as the empty string; the catch-all encodes as the string it holds |
| OAuth2Types.OAuth2Scope.FromRawValue | Sources/DiscordModels/Types/OAuth2.swift:3-33 | every string decodes; a string that decodes to the catch-all is kept there unchanged |
| OAuth2Types.OAuth2Scope.RawRoundTrip | Sources/DiscordModels/Types/OAuth2.swift:3-33 | decoding any string and re-encoding the result gives the string back |
| OAuth2Types.OAuth2Scope.DocumentedRoundTrip | Sources/DiscordModels/Types/OAuth2.swift:5-31 | each of the 27 documented scopes survives encoding and then decoding |
| OAuth2Types.OAuth2Scope.DecodesToCatchAllIff | Sources/DiscordModels/Types/OAuth2.swift:3-33 | a string decodes to the catch-all exactly when no documented scope has it |
| OAuth2Types.OAuth2Scope.CatchAllRoundTripIff | Sources/DiscordModels/Types/OAuth2.swift:32 | the catch-all survives encoding and decoding exactly when its string is undocumented; a documented string decodes to a documented scope that encodes back to it |
| OAuth2Types.OAuth2Scope.RawValueInjective | Sources/DiscordModels/Types/OAuth2.swift:5-31 | the 27 scope strings are pairwise distinct |

## Left out

- `Sources/DiscordGateway/GatewayManager.swift` declares a protocol with no logic to model. It is not part of this model.
- Multipart encoding (`Sources/DiscordHTTP/+MultipartEncodable.swift`) is not part of this model.
- JSON coding is left out: `Codable`, the macro's tolerant `init(from:)` and `Reaction`'s `encode(to:)`. Only the raw-value mapping the decoder relies on is modelled.
- The `@UnstableEnum` macro's implementation is not part of this model. Each enum's mapping is written out as the cases and trailing comments in the source give it.
- The unquoted comment `// Domain` (`User.swift:124`) is read as the raw value `"Domain"`.
- Grapheme segmentation, the Unicode Emoji property and canonical equivalence are parameters (`UnicodeTables`). The Unicode tables are not reproduced.
- EmojiTypes.Reaction.UrlPathDescription: the guild path is stated, as the inverse of cutting at the last ':', only for ids that hold no ':'. Snowflakes are decimal digits, but `EmojiSnowflake` admits any string.
- UserTypes.ConnectionService.RawValue and OAuth2Types.OAuth2Scope.RawValue: their contracts do not state that the documented strings are ASCII without `K`, `;` and `` ` ``. The argument above that the decoders agree with `String ==` is read off the tables and is not proved.
- `Reaction.Error.description` is left out. It only formats text.
- `Emoji.user` (a whole `DiscordUser`) is left out. No modelled operation reads it.
- `Emoji.roles` holds role ids as plain strings.
- `Reaction`'s private `Base` enum and its wrapper struct are one datatype, `Reaction`. `Reaction.Unicode` and `Reaction.Guild` are `Base`'s two cases.
- The Swift definitions of `validateCharacterCountDoesNotExceed`, `ValidationFailure` and the result builder behind `validate()` are not part of this model. They are modelled by what their names state (`Validation`).
- `ApplicationRoleConnection.metadata` holds strings in place of `ApplicationRoleConnectionMetadata`, because validation never reads it.
- The 64-bit width of `Int` and `UInt` raw values is left out. Raw values are unbounded `int` and `nat`, and no operation does arithmetic on them.
- `IntBitField<Flag>` (a set of flags packed into an integer) is left out. Only each flag's bit position is modelled.
- The plain record fields of `DiscordUser`, `PartialUser`, `MentionUser` and `Connection` are left out. They carry no behaviour.
- OAuth2Types.OAuth2Scope.FromRawValue: its own contract states only the catch-all half of the raw round trip. The full round trip is the lemma `RawRoundTrip`, kept apart so that each proof stays small.
