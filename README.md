# Blink, web-app and notification logic in Dafny

This project models five deterministic pieces of a Telegram web client and proves properties about them:

- **The shape validator** of the Solana Actions ("blink") integration, `validateStructure` in `src/lib/richTextProcessor/solanaBlink.ts`. It checks a decoded JSON value against a declarative reference. The reference is either an object of `{type, required, children}` entries or a one-element array. The module is `StructureValidator` in `structure_validator.dfy`. Its parts:
  - `Validate` is the recursive specification.
  - `ValidateStructure`, `ValidateElements` and `ValidateKeys` are the loops as the source writes them.
  - The three `STRUCT_*` references are constants.
- **`ActionsURLMapper.mapUrl`**, in the same source file. It rewrites a page URL into an API URL through ordered `(pathPattern, apiPath)` rules. The module is `UrlMapper` in `url_mapper.dfy`.
  - The regular expression that `matchPattern` builds is modelled by a tokenizer and a backtracking matcher. The matcher is greedy, as JavaScript's quantifiers are. It is proved sound, complete and greedy.
  - `**` is an any-string capture. `/*` captures one segment.
  - Every other pattern character is taken literally. The source does not escape `.` or other regular-expression metacharacters, so a `.` in a real pattern matches any character for the browser. In this model it matches only itself.
- **The hash and query-string parser** of `src/helpers/telegram-webapp.ts`. The module is `TelegramWebApp` in `webapp_params.dfy`. It covers `urlSafeDecode`, `urlParseQueryString` (a loop filling the parameter table) and `urlParseHashParams` (with its key-copying loop).
- **The placeholder substitution of `handleSubmit`** in `ActionBoxFooter` (`src/components/wrappers/solanaActionBox.tsx`). The module is `SolanaActionBox` in `action_box.dfy`. It covers the `refs` table, `setRef` and the loop of successive `replaceAll` calls over `{name}` templates and their `encodeURI` forms.
- **The bookkeeping of `AppNotificationsManager`** (`src/lib/appManagers/appNotificationsManager.ts`). The module is `AppNotifications` in `notifications.dfy`. It covers:
  - the unread counter;
  - the table of shown notifications with their `hidden` flags;
  - `soundsPlayed` and the one-second sound throttle;
  - the favicon de-duplication;
  - the cache of notify-settings promises;
  - `isMuted`.

  The class `AppNotificationsManager` keeps the source's fields. Each method is proved against a step function on the `Bookkeeping` value the fields make up.

Two modules are shared:

- `Wrappers` holds `Option` and `Result`.
- `JsStrings` models the JavaScript string built-ins the code relies on:
  - `indexOf`, `includes`, `split` and `join`;
  - `replaceAll`, including its `$$`, `$&`, `` $` `` and `$'` replacement patterns;
  - `replace(/\+/g, …)`;
  - number-to-string conversion and canonical array indices.

Some functions the code calls but does not define are parameters of the model:

- `JSON.parse` is `Parser`, a `string -> Option<Json>`, where `None` means it throws.
- `decodeURIComponent` is `Decoder`.
- `encodeURI` is a `string -> string`.
- The `URL` constructor is a partial function.

The clock `tsNow()` is an integer parameter. What the environment offers (`'Notification' in window`, the permission, a throwing `new Notification`, the idle flag `rootScope.idle.isIDLE`, `isMobile`) is a `Browser` value.

## Model

| member | source | states |
|---|---|---|
| StructureValidator.ValidateStructure | src/lib/richTextProcessor/solanaBlink.ts:86-188 | the loop-and-throw implementation returns exactly the recursive specification `Validate` |
| StructureValidator.Validate | src/lib/richTextProcessor/solanaBlink.ts:86-188 | the recursive definition of `validateStructure`; a success comes from a target that parses, returns that parsed target itself for an object reference, and an array of the same length for an array reference |
| StructureValidator.ValidateElements | src/lib/richTextProcessor/solanaBlink.ts:110-121 | the push loop over the target array yields the element results in order, or the first element's error |
| StructureValidator.ValidateKeys | src/lib/richTextProcessor/solanaBlink.ts:141-185 | the `for..in` loop over reference keys fails with the first failing key, else succeeds |
| StructureValidator.StringTargetIsParsed | src/lib/richTextProcessor/solanaBlink.ts:90-100 | a string target is parsed; unparsable text or text parsing to a string throws; otherwise the parsed value is validated |
| StructureValidator.ArrayReference | src/lib/richTextProcessor/solanaBlink.ts:102-121 | a non-array target throws; a reference of length other than 1 throws after that check; otherwise the result is the same-length array of per-element results |
| StructureValidator.ValidateItemsSpec | src/lib/richTextProcessor/solanaBlink.ts:110-118 | all elements pass iff each passes alone; the result holds each element's own result; a failure is that of the first failing element |
| StructureValidator.ValidateItemsErrSticky | src/lib/richTextProcessor/solanaBlink.ts:110-118 | once an element throws, later elements do not change the outcome |
| StructureValidator.ObjectReference | src/lib/richTextProcessor/solanaBlink.ts:123-187 | an object reference accepts an object or array target iff every field passes; on success the parsed target itself is returned; a failure is the first failing field's |
| StructureValidator.ValidateFieldsSpec | src/lib/richTextProcessor/solanaBlink.ts:141-185 | the first n fields pass iff each of them passes |
| StructureValidator.ValidateFieldsErrSticky | src/lib/richTextProcessor/solanaBlink.ts:141-185 | once a field throws, later fields do not change the outcome |
| StructureValidator.FirstFailure | src/lib/richTextProcessor/solanaBlink.ts:141-185 | a failing loop has a field that fails with the loop's error, and every field before it passes |
| StructureValidator.CheckFieldCases | src/lib/richTextProcessor/solanaBlink.ts:141-184 | a missing key throws iff required; a present optional falsy value is skipped unchecked; a non-object type must equal the runtime type (`'array'` or `typeof`), even for a falsy required value; an object type is skipped when children and value are both arrays, else recursed into |
| StructureValidator.UndefinedChildrenAlwaysFail | src/lib/richTextProcessor/solanaBlink.ts:123-133 | an object-typed key without `children` fails whenever it is present and truthy |
| StructureValidator.NoStructureMismatch | src/lib/richTextProcessor/solanaBlink.ts:164-179 | the re-check after a recursive call can never produce its own `Structure mismatch` error, at any depth |
| StructureValidator.NoStructureMismatchItems | src/lib/richTextProcessor/solanaBlink.ts:110-118 | no element result of an array reference is a `Structure mismatch` error |
| StructureValidator.NoStructureMismatchFields | src/lib/richTextProcessor/solanaBlink.ts:141-185 | no field loop ends in a `Structure mismatch` error |
| StructureValidator.NoStructureMismatchField | src/lib/richTextProcessor/solanaBlink.ts:164-179 | no single field check ends in a `Structure mismatch` error |
| StructureValidator.ValidateOkIsContainer | src/lib/richTextProcessor/solanaBlink.ts:135-139 | a successful result is always an array or an object, hence truthy |
| StructureValidator.ExtraKeysIgnored | src/lib/richTextProcessor/solanaBlink.ts:141 | two targets that agree on the reference's keys get the same verdict |
| StructureValidator.ExtraKeysIgnoredFields | src/lib/richTextProcessor/solanaBlink.ts:141-185 | the field loop gives the same verdict on targets that agree on the reference's keys |
| StructureValidator.ValidateIdempotent | src/lib/richTextProcessor/solanaBlink.ts:187 | validating a successful result again returns it unchanged |
| StructureValidator.ActionsJsonShape | src/lib/richTextProcessor/solanaBlink.ts:22-28 | an `actions.json` object passes iff `rules` is an array |
| StructureValidator.GetResponseShape | src/lib/richTextProcessor/solanaBlink.ts:30-66 | a GET response passes iff the four text keys are strings, a truthy `disabled` is a boolean, `error` is absent or falsy, and a truthy `links` passes its children |
| StructureValidator.GetResponseFields | src/lib/richTextProcessor/solanaBlink.ts:30-66 | the GET response passes iff each of its seven keys passes |
| StructureValidator.GetResponseStringKeys | src/lib/richTextProcessor/solanaBlink.ts:31-46 | title, icon, label and description pass iff each is a string |
| StructureValidator.GetResponseOptionalKeys | src/lib/richTextProcessor/solanaBlink.ts:47-65 | what `disabled`, `error` and `links` each demand |
| StructureValidator.TypedField | src/lib/richTextProcessor/solanaBlink.ts:141-163 | a checked non-object key has the declared type, and a required key is present |
| StructureValidator.OptionalObjectField | src/lib/richTextProcessor/solanaBlink.ts:164-179 | a present truthy optional object key passes its children |
| StructureValidator.LinksShape | src/lib/richTextProcessor/solanaBlink.ts:55-64 | the `links` object passes iff `actions` is an array |
| StructureValidator.PostResponseShape | src/lib/richTextProcessor/solanaBlink.ts:68-77 | a POST response passes iff `transaction` is a string and a truthy `message` is a string |
| UrlMapper.ActionsUrlMapper.MapUrl | src/lib/richTextProcessor/solanaBlink.ts:268-295 | the rule loop with early returns yields exactly `MapRules` over the configured rules |
| UrlMapper.ActionsUrlMapper.ConstructMappedUrl | src/lib/richTextProcessor/solanaBlink.ts:315-332 | the `forEach` over the groups and the final concatenation yield `ConstructedUrl` |
| UrlMapper.FirstRuleWins | src/lib/richTextProcessor/solanaBlink.ts:273-291 | rules are tried in order: the first applicable rule decides the result |
| UrlMapper.NoRuleNull | src/lib/richTextProcessor/solanaBlink.ts:273-294 | the result is `null` iff no rule applies |
| UrlMapper.ExactMatchVerbatim | src/lib/richTextProcessor/solanaBlink.ts:275-277 | an exact match (`pathPattern == origin + pathname`) returns `apiPath + search` with no origin |
| UrlMapper.IsExactMatch | src/lib/richTextProcessor/solanaBlink.ts:298-300 | defined as `pattern == origin + pathname`; what `mapUrl` does with it is `ExactMatchVerbatim` |
| UrlMapper.MatchPattern | src/lib/richTextProcessor/solanaBlink.ts:303-312 | the groups returned spell the target (the full URL for a pattern starting with `http`, else the path), and `null` is returned exactly when no choice of groups does |
| UrlMapper.TokenizeRoundTrip | src/lib/richTextProcessor/solanaBlink.ts:304-306 | tokenizing loses none of the pattern text, and a segment capture always follows a literal `/` |
| UrlMapper.MatchSound | src/lib/richTextProcessor/solanaBlink.ts:311 | the groups the matcher returns fit their captures and spell the target |
| UrlMapper.MatchComplete | src/lib/richTextProcessor/solanaBlink.ts:311 | whenever some choice of groups spells the target, the matcher succeeds |
| UrlMapper.MatchIff | src/lib/richTextProcessor/solanaBlink.ts:311 | the pattern matches iff some choice of groups spells the target |
| UrlMapper.MatchGreedy | src/lib/richTextProcessor/solanaBlink.ts:305 | against any other match, the returned groups agree up to a group that is strictly longer (greedy quantifiers) |
| UrlMapper.TryCaptureFinds | src/lib/richTextProcessor/solanaBlink.ts:305 | a capture keeps the longest candidate length that lets the rest match |
| UrlMapper.SegmentEnds | src/lib/richTextProcessor/solanaBlink.ts:305 | a `/*` capture never reaches past the next `/` |
| UrlMapper.MatchAnyAll | src/lib/richTextProcessor/solanaBlink.ts:305 | a `**` capture takes any text without line terminators |
| UrlMapper.ReplaceFirstStarRunSpec | src/lib/richTextProcessor/solanaBlink.ts:323 | for a group without `*` and `$`, replacing the first run of `*` removes exactly that run; without a run nothing changes |
| UrlMapper.ReplaceFirstStarRunLiteral | src/lib/richTextProcessor/solanaBlink.ts:323 | a group without `$` is inserted as it is |
| UrlMapper.MappedPathRuns | src/lib/richTextProcessor/solanaBlink.ts:321-324 | for groups without `*` and `$`, each group uses up one run of `*`; leftover runs stay and surplus groups are dropped |
| UrlMapper.ConstructedUrlShape | src/lib/richTextProcessor/solanaBlink.ts:326-332 | a relative API path goes after the page origin; an absolute one gives the rewritten URL's origin and path, or throws when the URL constructor rejects it; the query string ends every result |
| UrlMapper.WildcardExample | src/lib/richTextProcessor/solanaBlink.ts:303-332 | a rule with `/*` and `**` maps `/buy/42/item/shoes/red` through both groups in order, after the origin and before the query |
| UrlMapper.SinglePatternRule | src/lib/richTextProcessor/solanaBlink.ts:273-291 | a single non-exact rule whose pattern matches yields the URL built from the groups |
| UrlMapper.ExactExample | src/lib/richTextProcessor/solanaBlink.ts:275-277 | an exact rule with an absolute API path returns it followed by the query, with no origin |
| TelegramWebApp.SafeDecode | src/helpers/telegram-webapp.ts:1-8 | defined as decoding the text with every `+` turned into `%20`, falling back to that text; its properties are `SafeDecodeFallback` |
| TelegramWebApp.SafeDecodeFallback | src/helpers/telegram-webapp.ts:1-8 | every `+` becomes `%20` before decoding; a failed decode returns that replaced text, not the original |
| TelegramWebApp.UrlParseQueryString | src/helpers/telegram-webapp.ts:33-47 | the indexed loop fills the table exactly as `QueryParams` specifies |
| TelegramWebApp.CollectParamsKeys | src/helpers/telegram-webapp.ts:40-45 | the table's keys are exactly the decoded names of the pieces |
| TelegramWebApp.CollectParamsLastWins | src/helpers/telegram-webapp.ts:44 | a repeated name keeps the value of its last piece |
| TelegramWebApp.ParamWithoutEquals | src/helpers/telegram-webapp.ts:41-43 | a piece without `=` is named by its whole decoded text and has value `null` |
| TelegramWebApp.ParamWithEquals | src/helpers/telegram-webapp.ts:41-43 | a piece with `=` is named by the decoded text before the first `=` and has a non-null value |
| TelegramWebApp.ParamEdgeCases | src/helpers/telegram-webapp.ts:41-44 | `a=` gives the decoded empty string, not `null`; `a=b=c` keeps only `b`; an empty piece gives key `""` with `null` |
| TelegramWebApp.ParamValueNull | src/helpers/telegram-webapp.ts:43 | the value is `null` iff the piece contains no `=` |
| TelegramWebApp.UrlParseHashParams | src/helpers/telegram-webapp.ts:10-31 | the method (reassigning the hash and copying keys) yields exactly `HashParams` of the hash without its `#` |
| TelegramWebApp.CopyParams | src/helpers/telegram-webapp.ts:27-29 | the `for..in` copy yields the target overridden by every source key |
| TelegramWebApp.StripOneHash | src/helpers/telegram-webapp.ts:11 | one leading `#` is removed and a second one survives; text without a leading `#` is unchanged |
| TelegramWebApp.HashEmpty | src/helpers/telegram-webapp.ts:13-15 | an empty remainder yields the empty table |
| TelegramWebApp.HashPathOnly | src/helpers/telegram-webapp.ts:16-19 | a hash with neither `=` nor `?` yields exactly `{_path: decode(hash)}` |
| TelegramWebApp.HashQueryOnly | src/helpers/telegram-webapp.ts:16-26 | with `=` but no `?` the whole text is parsed as a query and the table is exactly that query's, so `_path` is present only as a query key |
| TelegramWebApp.HashWithQuery | src/helpers/telegram-webapp.ts:20-30 | with `?`, `_path` is the decoded text before the first `?`, the rest is a query, and a query key `_path` overrides it |
| SolanaActionBox.InitialRefs | src/components/wrappers/solanaActionBox.tsx:21-26 | one entry per action: one empty slot per parameter, or `undefined` without parameters |
| SolanaActionBox.ActionBoxFooter.SetRef | src/components/wrappers/solanaActionBox.tsx:27-29 | writes exactly one slot and keeps the shape of `refs` |
| SolanaActionBox.ActionBoxFooter.HandleSubmit | src/components/wrappers/solanaActionBox.tsx:31-43 | the substitution loop yields exactly `PostUrl` of the action, its slots and the base URL |
| SolanaActionBox.PostWithoutParameters | src/components/wrappers/solanaActionBox.tsx:32-33 | an action without parameters posts to `linkedActionHref(href, actionUrl)` unchanged |
| SolanaActionBox.SubstituteCases | src/components/wrappers/solanaActionBox.tsx:35-41 | an absent template leaves the URL unchanged; a present one is replaced raw, then encoded; the `includes` guard changes nothing |
| SolanaActionBox.EmptyInputRestoresRaw | src/components/wrappers/solanaActionBox.tsx:36-40 | for a parameter name without `$`, an empty input leaves raw placeholders and rewrites encoded ones to the raw `{name}` form |
| SolanaActionBox.SubmitFromFails | src/components/wrappers/solanaActionBox.tsx:34-36 | the submit throws iff some input is not mounted, and the error names the first such slot |
| SolanaActionBox.SubmitFromAppend | src/components/wrappers/solanaActionBox.tsx:34-42 | parameters are processed in declaration order: one more parameter is one more substitution step at the end |
| SolanaActionBox.SubmitLast | src/components/wrappers/solanaActionBox.tsx:34-42 | the last parameter's substitution is applied to the result of all earlier ones |
| SolanaActionBox.ChainedPlaceholders | src/components/wrappers/solanaActionBox.tsx:34-42 | a value containing a later placeholder is substituted by that later step (`{a}` with inputs `{b}` and `x` gives `x`) |
| JsStrings.SplitJoin | src/helpers/telegram-webapp.ts:38 | `split` then `join` with the same separator gives back the text |
| JsStrings.ReplaceAllAbsent | src/components/wrappers/solanaActionBox.tsx:39-40 | `replaceAll` of an absent pattern is the identity |
| JsStrings.ReplaceAllSelf | src/components/wrappers/solanaActionBox.tsx:39 | replacing a pattern without `$` by itself is the identity |
| JsStrings.ReplaceCharProperties | src/helpers/telegram-webapp.ts:3 | after replacing every `+` none is left, and text without `+` is unchanged |
| JsStrings.IndexRoundTrip | src/lib/richTextProcessor/solanaBlink.ts:141-147 | a decimal array index parses back to itself |
| JsStrings.NatToStringInjective | src/lib/appManagers/appNotificationsManager.ts:486 | distinct numbers have distinct decimal strings |
| AppNotifications.AppNotificationsManager.constructor | src/lib/appManagers/appNotificationsManager.ts:35-80 | the initial field values and the support flag |
| AppNotifications.AppNotificationsManager.Notify | src/lib/appManagers/appNotificationsManager.ts:430-549 | the field updates of `notify` are exactly `NotifyStep` |
| AppNotifications.AppNotificationsManager.Show | src/lib/appManagers/appNotificationsManager.ts:471-544 | the display part of `notify` is exactly `ShowStep` |
| AppNotifications.AppNotificationsManager.Count | src/lib/appManagers/appNotificationsManager.ts:454-469 | the count, the title flashing and the sound of `notify` are exactly `CountStep` |
| AppNotifications.AppNotificationsManager.ToggleToggler | src/lib/appManagers/appNotificationsManager.ts:193-206 | the interval flag and `prevFavicon` follow `TogglerStep`; nothing else changes |
| AppNotifications.AppNotificationsManager.HideTag | src/lib/appManagers/appNotificationsManager.ts:490-497 | the `for..in` loop hides exactly the entries with the tag and changes nothing else |
| AppNotifications.HideTaggedLoop | src/lib/appManagers/appNotificationsManager.ts:490-497 | the loop over the keys yields `HideTagged` |
| AppNotifications.AppNotificationsManager.TestSound | src/lib/appManagers/appNotificationsManager.ts:553-560 | the throttle fields and the played flag follow `TestSoundStep`; nothing else changes |
| AppNotifications.AppNotificationsManager.Cancel | src/lib/appManagers/appNotificationsManager.ts:577-596 | the table becomes `CancelStep`, nothing else changes |
| AppNotifications.AppNotificationsManager.Hide | src/lib/appManagers/appNotificationsManager.ts:598-608 | the table becomes `HideStep`, nothing else changes |
| AppNotifications.AppNotificationsManager.SoundReset | src/lib/appManagers/appNotificationsManager.ts:610-612 | the sound record becomes `SoundResetStep`, nothing else changes |
| AppNotifications.AppNotificationsManager.Clear | src/lib/appManagers/appNotificationsManager.ts:614-631 | the table becomes `ClearStep`, nothing else changes |
| AppNotifications.AppNotificationsManager.SetFavicon | src/lib/appManagers/appNotificationsManager.ts:360-371 | `prevFavicon` and whether the element is swapped follow `FaviconStep` |
| AppNotifications.AppNotificationsManager.Stop | src/lib/appManagers/appNotificationsManager.ts:413-419 | clears the table, drops the title interval, records the default favicon and sets `stopped` |
| AppNotifications.AppNotificationsManager.SavePeerSettings | src/lib/appManagers/appNotificationsManager.ts:373-383 | the cache becomes `SaveStep`, nothing else changes |
| AppNotifications.AppNotificationsManager.GetNotifySettings | src/lib/appManagers/appNotificationsManager.ts:294-310 | the cache, the promise returned and whether a request is made follow `GetSettingsStep` |
| AppNotifications.NotifyWhenStopped | src/lib/appManagers/appNotificationsManager.ts:431-433 | a stopped manager ignores `notify` |
| AppNotifications.NotifyCounts | src/lib/appManagers/appNotificationsManager.ts:454-469 | the count grows by exactly one before any check; the tab follows `toggleToggler` when no interval runs; with sound on, the throttle follows `testSound` and `soundsPlayed[tag] := now`; with it off, the sound state is unchanged |
| AppNotifications.NotifyTitle | src/lib/appManagers/appNotificationsManager.ts:455-456 | with no interval running, notifying an active desktop user resets the title and records the default favicon, an idle one starts an interval; a mobile device or a running interval leaves the tab alone |
| AppNotifications.NotifyBlocked | src/lib/appManagers/appNotificationsManager.ts:471-483 | without support, without permission, or with desktop notifications off, only the count changes in the table and no index is taken |
| AppNotifications.NotifyShows | src/lib/appManagers/appNotificationsManager.ts:485-544 | a shown notification takes the next index and is stored visible under `data.key` or `k` + index; with a tag, earlier same-tag entries are hidden; nothing else in the table changes |
| AppNotifications.NotifyThrows | src/lib/appManagers/appNotificationsManager.ts:488-508 | when `new Notification` throws, the index is still taken and same-tag entries hidden, but nothing is stored and support is switched off |
| AppNotifications.GeneratedKeysDistinct | src/lib/appManagers/appNotificationsManager.ts:485-486 | generated keys are `k` plus digits, distinct for distinct indices |
| AppNotifications.TestSoundCases | src/lib/appManagers/appNotificationsManager.ts:553-560 | early return iff `nextSoundAt` is set and nonzero, `now < nextSoundAt` and the volume repeats; otherwise the next sound is due at `now + 1000` with the new volume |
| AppNotifications.ThrottleWindow | src/lib/appManagers/appNotificationsManager.ts:553-560 | after a sound, the same volume is silent exactly until `now + 1000`, and another volume plays at once |
| AppNotifications.CancelCases | src/lib/appManagers/appNotificationsManager.ts:577-596 | a present key is deleted alone and the count drops by one, never below zero; an absent key changes nothing |
| AppNotifications.NotifyThenCancel | src/lib/appManagers/appNotificationsManager.ts:430-596 | cancelling the notification just shown restores the count and forgets its key |
| AppNotifications.HideKeeps | src/lib/appManagers/appNotificationsManager.ts:598-608 | `hide` keeps every key and the count, and only sets that entry's flag |
| AppNotifications.ClearEmpties | src/lib/appManagers/appNotificationsManager.ts:614-631 | `clear` empties the table and zeroes the count; clearing twice is clearing once |
| AppNotifications.SoundResetOnly | src/lib/appManagers/appNotificationsManager.ts:610-612 | `soundReset` removes its tag and keeps every other entry |
| AppNotifications.FaviconDedupe | src/lib/appManagers/appNotificationsManager.ts:360-371 | the element is replaced iff `href` differs from `prevFavicon`; a repeated call does nothing |
| AppNotifications.SaveThenGet | src/lib/appManagers/appNotificationsManager.ts:294-310 | saved settings are returned by the next lookup without a request |
| AppNotifications.PeerMissRepeats | src/lib/appManagers/appNotificationsManager.ts:294-310 | a per-peer miss stores the request at the top level, not under `notifyPeer`, so the next lookup misses again |
| AppNotifications.KindMissCaches | src/lib/appManagers/appNotificationsManager.ts:294-310 | a kind that misses is requested once and then returned from the cache |
| AppNotifications.MuteExpires | src/lib/appManagers/appNotificationsManager.ts:385-388 | muted settings are of the `peerNotifySettings` kind with a `mute_until`, and are unmuted from `mute_until * 1000` on; settings of another kind or without `mute_until` are never muted |
| AppNotifications.MutedEarlier | src/lib/appManagers/appNotificationsManager.ts:385-388 | settings muted at an instant are muted at every earlier one |

## Left out

- Network I/O is not modelled: `fetchActionsJson`, `fetchActionsGet`, `fetchActionsPost`, the registry fetch of `isVerifiedAction`, and the orchestration in `detectSolanaAction`. These are asynchronous HTTP calls.
- `parseURL`, the `URL` constructor and `linkedActionHref` are foreign library calls. Their results are inputs: the page URL is a record of `origin`, `pathname`, `search` and `href`.
- The wallet path is not modelled: `getProvider`, `connect`, the base64 `Buffer`, transaction deserialisation and `signAndSendTransaction`. It is an external SDK.
- `JSON.parse`, `decodeURIComponent` and `encodeURI` are parameters, not implementations.
- Regular-expression metacharacters in `pathPattern` other than the two wildcards are matched literally, unlike the browser.
- UrlMapper.ActionsUrlMapper.MapUrl: the `SyntaxError` that `new RegExp` (solanaBlink.ts line 304) throws for a pattern that is not a valid expression, such as `*foo`, `/a(` or `/[x`, is not modelled; such a pattern is matched literally instead of making `mapUrl` throw.
- JavaScript `for..in` order is not modelled. The model walks reference entries in declaration order and the parameter table's keys in an arbitrary order. The outcome of `CopyParams` and `HideTag` does not depend on that order.
- TelegramWebApp.UrlParseQueryString: the parameter table is a map, so a name that is an `Object.prototype` property name is assumed not to occur. In the source, `params["__proto__"] = v` sets the prototype and adds no own key.
- TelegramWebApp.CollectParamsKeys: the keys equal the decoded names only under that same assumption.
- AppNotifications.AppNotificationsManager.Cancel: `notificationsShown` is a map, so keys are assumed not to be `Object.prototype` property names. In the source, `cancel("constructor")` finds the inherited member, lowers the count and deletes nothing, and storing under `__proto__` replaces the prototype.
- AppNotifications.CancelCases: "an absent key changes nothing" holds only under that same assumption.
- SolanaActionBox.ActionBoxFooter.SetRef: the `index` and `_index` arguments must be in range. The source would create holes or throw otherwise.
- The input element is modelled by its text, and an unmounted slot by `None`.
- Notification browser plumbing is not modelled:
  - the `Notification` objects and their `onclick` and `onclose` callbacks;
  - `show` and `close`;
  - the `<audio>` element;
  - the title text, the canvas favicon and the work the `toggleToggler` interval does when it fires;
  - the eight-second auto-hide timer and `vibrate`;
  - `rootScope` events and the loading of `settings` by `updateLocalSettings`;
  - `registerDevice` and the push code.

  `toggleToggler` is modelled only for the interval flag and the `setFavicon()` call of `resetTitle`. The `idle` event handler that calls it is not modelled. `data.image` is ignored.
- AppNotifications.NotifyStep: the two `tsNow()` readings of `notify` and `testSound` are taken as one instant `now`.
- `convertInputKeyToKey` is taken as applied. A kind in `InputKind` is one of `notifyUsers`, `notifyChats` or `notifyBroadcasts`.
- `savePeerSettings` stores the settings directly rather than as a promise.
- `PeerKey` and `KindKey` keep apart top-level keys that JavaScript would write as property names. A numeric peer id can never equal a kind name, so nothing is lost.
- `apiManager.invokeApi` is not modelled. A request is represented by the `Requested(peer)` promise it returns.
- The rest of `AppNotificationsManager` is not part of this model: `updateNotifySettings`, `getNotifyExceptions`, contact sign-up, `start` and the push registration.
- The popups and the rendering parts of `solanaActionBox.tsx` are pure UI.

## Notes

- An exact match in `mapUrl` returns `apiPath` and the query string with no origin in front. The model follows the code here. The caller `detectSolanaAction` passes the result to `new URL(...)` (solanaBlink.ts line 366), so a relative `apiPath` reached through an exact match makes that call throw.
- `replaceAll` and `replace` expand `$&`, `` $` ``, `$'` and `$$` in the replacement text. A parameter whose name contains `$` therefore does not substitute literally. For example, the URL ``a{$`}`` with the parameter name `` $` `` and an empty input becomes `a{a}`. This is why the lemmas about placeholders and `*` runs require names and groups without `$`.
- `getNotifySettings` looks a peer up under `notifyPeer`, but it stores a miss at the top level. `PeerMissRepeats` captures this behaviour as written.
- The `includes` guard of `handleSubmit` is redundant. `SubstituteCases` proves that the two `replaceAll` calls are already the identity when neither template occurs.
