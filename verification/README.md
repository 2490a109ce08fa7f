# Vambe for WooCommerce — a Dafny model of its core

Vambe for WooCommerce lets a Vambe conversational assistant work with a WooCommerce shop. It has two parts.

**The WordPress plugin.** It comes in two variants: the root `includes/` plugin and the packaged `vambe_for_wc/` plugin.
- **Cart links.** Reads `?add-vambe-cart=12_40:2,30` links and fills the cart from them.
- **Order attribution.** Marks orders that came through such a link: the `vambe_cart` cookie, the `vambe_checkout_id`/`vambe_assistant_id`/`vambe_contact_id` cookies, and the `_cart_data` marker.
- **Stock endpoint.** Answers the `vambe-stock` REST endpoint.
- **Abandoned carts.** Tracks each session's cart and notifies once a cart has been idle too long, through WooCommerce webhooks. Webhooks with a repeated delivery URL are removed.
- **Webchat.** Injects the webchat configuration into the shop footer.

**The packaging server (NestJS).**
- Writes a client's key into a copy of the plugin and offers it for download.
- Guards this behind an API key.
- Deletes old downloads.

Everything is modelled with immutable datatypes and pure functions. The WordPress and WooCommerce host is a record of functions (`Storefront.Host`). Its parts:
- the product catalog;
- the `apply_filters` hooks;
- `add_to_cart`;
- `sanitize_text_field`;
- the cart-redirect option.

The clock (`now`, `Date.now()`) and the file system are parameters too. Several PHP built-ins are modelled on `seq<char>` in `Php`:
- `empty`, `trim`, `explode`, `implode`;
- `strpos`, `is_numeric`, `intval`, `absint`.

These follow PHP 8. `intval` and `absint` read the whole leading numeric prefix, as PHP does since 7.1: digits, an optional fraction and an optional exponent, cut toward zero. So `absint("1e3")` is 1000 and `absint(".5")` is 0.

PHP's `preg_match_all` with the two cart-link patterns is modelled as a scanner in `UrlParams`.

| Dafny module | File | Models |
|---|---|---|
| `Optional`, `Decimal`, `Php` | optional.dfy, decimal.dfy, php.dfy | option values, decimal digit strings, PHP string built-ins |
| `UrlParams` | url_params.dfy | the character guards and `preg_match_all` over `(\d+)(?::(\d+))?` and `(\d+)(?:_(\d+))?(?::(\d+))?` |
| `Storefront` | storefront.dfy | what both `add_to_cart_action` variants share: the add loop's bookkeeping, the redirect, cookies, the cart afterwards |
| `PackagedCart`, `RootCart` | packaged_cart.dfy, root_cart.dfy | the two `add_to_cart_action` variants |
| `Attribution` | attribution.dfy | `is_vambe_order` and `add_order_channel_metadata`, both variants |
| `Stock` | stock.dfy | `get_products_stock` |
| `CartTracker` | cart_tracker.dfy | `track_cart_changes`, `clear_abandoned_cart`, `process_abandoned_carts` and its helpers |
| `Webhooks` | webhooks.dfy | the URL de-duplication loop of `vambe_trigger_cart_webhook` |
| `Webchat` | webchat.dfy | `Vambe_Script_Injector::init` and `inject_shop_script` |
| `PluginOptions` | plugin_options.dfy | `vambe_get_cart_timeout`, `vambe_get_api_key` |
| `Packaging` | packaging.dfy | the pure parts of `plugin.service.ts` |
| `DownloadApi` | download_api.dfy | `PluginController.downloadPlugin` |

Where the code and its comments or documented intent differ, the model follows the code:
- **Cleanup age.** Old downloads are deleted after two hours. The comment above the constant says three hours (`Packaging.MaxAgeMs`).
- **Abandoned-cart notification.** A notification counts as sent once the webhook call returns. The trigger catches every delivery exception itself, so `send_abandoned_cart_notification` always reports success. The model therefore marks a due, reachable session as notified, whatever the delivery did.
- **Channel data.** `fetch_channels_data` is never called, so `channels_data` is always empty in practice. The model still takes it as an input (`Webchat.InjectShopScript`), so that its branch is covered.

## Model

| member | source | states |
|---|---|---|
| Php.Trim | vambe_for_wc/includes/class-vambe-for-wc.php:93 | the result is the slice of the input left after dropping trim characters at both ends, and neither of its ends is a trim character |
| Php.TrimIdempotent | vambe_for_wc/includes/class-vambe-script-injector.php:140 | trimming twice is trimming once |
| Php.Explode | vambe_for_wc/includes/class-vambe-for-wc.php:440 | `explode` always yields at least one part, and no part holds the delimiter |
| Php.ImplodeExplode | vambe_for_wc/includes/class-vambe-for-wc.php:440 | joining the parts of an explode with the delimiter gives the original string back |
| Php.ExplodeImplode | vambe_for_wc/includes/class-vambe-script-injector.php:135 | exploding a join of delimiter-free parts gives those parts back |
| Php.StrPos | vambe_for_wc/includes/class-vambe-for-wc.php:262 | the result is the first offset at which the needle occurs, and it is `false` exactly when the needle occurs nowhere |
| Php.DigitsAreNumeric | vambe_for_wc/includes/class-vambe-for-wc.php:70-72 | a non-empty run of digits is numeric to `is_numeric` |
| Php.NumericHasNoComma | vambe_for_wc/includes/class-vambe-for-wc.php:70-72 | no numeric string holds a comma |
| Php.AbsintOfDigits | vambe_for_wc/includes/class-vambe-for-wc.php:102-103 | `absint` of a digit string is its decimal value |
| Php.AbsintOfExponent | vambe_for_wc/includes/class-vambe-for-wc.php:440 | `absint` of digits, `e` and digits is the first number scaled by ten to the second |
| Php.AbsintOfFraction | vambe_for_wc/includes/class-vambe-for-wc.php:440 | `absint` of a decimal fraction cuts the fraction off toward zero |
| Php.ExponentExample | vambe_for_wc/includes/class-vambe-for-wc.php:440 | `absint("1e3")` is 1000 |
| Php.AbsintOfDecimal | vambe_for_wc/includes/class-vambe-for-wc.php:440 | `absint` reads back a printed number |
| UrlParams.Scan | vambe_for_wc/includes/class-vambe-for-wc.php:97 | every match has a digit-run id and one digit-run-or-missing capture per optional group |
| UrlParams.ScanEncode | includes/class-vambe-for-wc.php:97 | the scanner reads a parameter written from any list of matches back as exactly that list, in order, for separators that are not digits, commas or repeated |
| UrlParams.ScanOfTrim | vambe_for_wc/includes/class-vambe-for-wc.php:93-97 | trimming the parameter before the scan changes no match |
| UrlParams.EncodeChars | includes/class-vambe-for-wc.php:76 | a written parameter holds only digits, commas and the separators, the characters the guard admits |
| UrlParams.EncodeHasComma | vambe_for_wc/includes/class-vambe-for-wc.php:70-72 | a parameter written for two or more items holds a comma |
| Storefront.FoldSomething | vambe_for_wc/includes/class-vambe-for-wc.php:101-131 | `something_was_added_to_cart` is set iff some attempt succeeded |
| Storefront.FoldLines | vambe_for_wc/includes/class-vambe-for-wc.php:126-129 | one cart line per successful attempt, in the order of the attempts |
| Storefront.FoldKeys | vambe_for_wc/includes/class-vambe-for-wc.php:128 | the keys of `added_to_cart` are exactly the keys of the successful attempts |
| Storefront.FoldLastWins | includes/class-vambe-for-wc.php:125 | the quantity recorded under a key is the one of the last success under that key |
| Storefront.RedirectAfterAdd | vambe_for_wc/includes/class-vambe-for-wc.php:142-150 | there is a redirect iff the filtered URL is truthy or the cart-redirect option is exactly "yes", a truthy filtered URL wins, and otherwise the target is the cart page |
| Storefront.CookieFrom | vambe_for_wc/includes/class-vambe-for-wc.php:153-163 | an id cookie is set iff its request parameter is non-empty to PHP, and it carries the sanitized value |
| PackagedCart.AddToCartAction | vambe_for_wc/includes/class-vambe-for-wc.php:64-192 | ignored iff the parameter is empty to PHP or numeric; otherwise rejected iff the sanitized parameter has a character outside `[\d\s,:]`; a handled request always sets the seven-day `vambe_cart` cookie first |
| PackagedCart.Finish | vambe_for_wc/includes/class-vambe-for-wc.php:133-189 | the outcome carries exactly the lines and quantities the loop collected |
| PackagedCart.BareIdIgnored | vambe_for_wc/includes/class-vambe-for-wc.php:70-72 | a link naming one bare id is ignored as numeric |
| PackagedCart.RejectedKeepsCart | vambe_for_wc/includes/class-vambe-for-wc.php:76-80 | a parameter with a disallowed character is rejected before the cart is emptied |
| PackagedCart.AttemptShape | vambe_for_wc/includes/class-vambe-for-wc.php:106-129 | a success needs an existing product that is whitelisted or a variation; it is recorded under the requested id; a variation goes into the cart under its parent with itself as the variation id |
| PackagedCart.OtherKindsSkipped | vambe_for_wc/includes/class-vambe-for-wc.php:123 | a product neither whitelisted nor a variation is never added, whatever the hooks say |
| PackagedCart.IdCookies | vambe_for_wc/includes/class-vambe-for-wc.php:135-189 | id cookies are set only after a successful add that does not redirect, one for each non-empty id parameter |
| PackagedCart.ParseWrite | vambe_for_wc/includes/class-vambe-for-wc.php:97-103 | a link written as `id[:qty],…` parses to exactly those items in order, with the quantity defaulting to 1 |
| PackagedCart.WriteAccepted | vambe_for_wc/includes/class-vambe-for-wc.php:66-78 | a link written for two or more items passes all three guards |
| PackagedCart.ActionOnWrite | vambe_for_wc/includes/class-vambe-for-wc.php:64-131 | for such a link, left alone by sanitizing, the loop runs over exactly the intended items |
| RootCart.AddToCartAction | includes/class-vambe-for-wc.php:64-165 | the same guards with `[\d\s,_:]`, and the three-day `vambe_cart` cookie |
| RootCart.Finish | includes/class-vambe-for-wc.php:131-162 | the outcome carries exactly the lines and quantities the loop collected |
| RootCart.BareIdIgnored | includes/class-vambe-for-wc.php:70-72 | a link naming one bare id is ignored as numeric |
| RootCart.RejectedKeepsCart | includes/class-vambe-for-wc.php:76-80 | a parameter with a disallowed character is rejected and the cart is unchanged |
| RootCart.ExternalNeverAdded | includes/class-vambe-for-wc.php:107 | an external product is never added |
| RootCart.BadVariationSkipped | includes/class-vambe-for-wc.php:112-118 | under the variable handler, a non-zero variation that is missing or not purchasable skips the item |
| RootCart.AttemptShape | includes/class-vambe-for-wc.php:105-126 | a success needs an existing whitelisted product, and is recorded under the product id with the parsed variation and quantity |
| RootCart.VariationsCollapse | includes/class-vambe-for-wc.php:123-125 | two successful adds of one product (two variations, say) both reach the cart as their own `add_to_cart` calls, while `added_to_cart` keeps only the last quantity under the product id |
| RootCart.ParseWrite | includes/class-vambe-for-wc.php:97-104 | a link written as `id[_var][:qty],…` parses to exactly the intended items (id filtered, variation 0 and quantity 1 by default) |
| RootCart.WriteAccepted | includes/class-vambe-for-wc.php:66-78 | a link written for two or more items passes all three guards |
| RootCart.ActionOnWrite | includes/class-vambe-for-wc.php:64-129 | for such a link, left alone by sanitizing, the loop runs over exactly the intended items |
| Attribution.VambeOrderIff | vambe_for_wc/includes/class-vambe-for-wc.php:254-267 | an order is Vambe's iff the `vambe_cart` cookie is exactly "true" or the `add-vambe-cart` marker occurs somewhere in the cart data |
| Attribution.CartDataMarks | includes/class-vambe-for-wc.php:222-225 | cart data embedding the marker marks the order, whatever the cookies |
| Attribution.CopyIds | vambe_for_wc/includes/class-vambe-for-wc.php:209-225 | each id cookie in the jar becomes a meta entry with its sanitized value; every other key is kept as it was |
| Attribution.AddChannelMetadata | vambe_for_wc/includes/class-vambe-for-wc.php:200-245 | the cart cookie and every id cookie are cleared with an expiry in the past, Vambe order or not; a non-Vambe order's meta is untouched |
| Attribution.VambeOrderTagged | vambe_for_wc/includes/class-vambe-for-wc.php:205-226 | a Vambe order gets the utm source and the channel set to "Vambe", plus the present id cookies, and nothing else changes |
| Attribution.MissingCookieNotCopied | vambe_for_wc/includes/class-vambe-for-wc.php:210-225 | an id cookie missing from the jar leaves that meta key as it was |
| Attribution.RootMetadata | includes/class-vambe-for-wc.php:173-206 | the root variant clears exactly `vambe_cart` and `vambe_checkout_id` |
| Attribution.PackagedMetadata | vambe_for_wc/includes/class-vambe-for-wc.php:231-242 | the packaged variant clears exactly the cart, checkout, assistant and contact cookies |
| Attribution.PackagedExtendsRoot | vambe_for_wc/includes/class-vambe-for-wc.php:200-226 | the packaged variant records everything the root variant does, with the same values |
| Stock.RequestedIds | vambe_for_wc/includes/class-vambe-for-wc.php:439-441 | a string gives one id per comma-separated part, each the `absint` of its part (whole numeric prefix, exponent included); a list is used as it is |
| Stock.StockData | vambe_for_wc/includes/class-vambe-for-wc.php:443-485 | the answer has an entry for exactly the requested ids, each the entry for that id |
| Stock.EntryFor | vambe_for_wc/includes/class-vambe-for-wc.php:446-480 | not found iff the product is missing; variable products list exactly their available variations; others report their own stock |
| Stock.GetProductsStock | vambe_for_wc/includes/class-vambe-for-wc.php:430-441 | a missing-ids error iff the parameter is empty to PHP; otherwise one entry per requested id |
| Stock.RequestedIdsOfText | vambe_for_wc/includes/class-vambe-for-wc.php:440 | ids written comma-separated are read back exactly, in order |
| Stock.ZeroAloneIsMissing | vambe_for_wc/includes/class-vambe-for-wc.php:434 | asking for product 0 alone, as "0", is answered as if no ids were given |
| Stock.StockOfText | vambe_for_wc/includes/class-vambe-for-wc.php:434-445 | any other written id list is answered with entries for exactly those ids |
| Stock.NonNumericPartIsZero | vambe_for_wc/includes/class-vambe-for-wc.php:440 | a part starting with neither a digit, a sign, white space nor a decimal point followed by a digit asks for product 0 |
| Stock.ExponentIdIsScaled | vambe_for_wc/includes/class-vambe-for-wc.php:440 | the part "1e3" asks for product 1000, not 1 |
| Webhooks.Dispatch | vambe_for_wc/includes/class-vambe-cart-tracker.php:397-462 | without an exception the walk does exactly the reference plan; a throwing delivery ends it after a prefix of the plan whose last action is that delivery, and no earlier delivery threw |
| Webhooks.OtherTopicsUntouched | vambe_for_wc/includes/class-vambe-cart-tracker.php:401 | only hooks for the topic are delivered or deleted |
| Webhooks.DeliveredOncePerUrl | vambe_for_wc/includes/class-vambe-cart-tracker.php:403-409 | no delivery URL is delivered to twice |
| Webhooks.FirstDelivered | vambe_for_wc/includes/class-vambe-cart-tracker.php:409-454 | with a payload, the first hook for each URL is delivered |
| Webhooks.DuplicateDeleted | vambe_for_wc/includes/class-vambe-cart-tracker.php:404-407 | every later hook for an already seen URL is deleted, payload or not |
| Webhooks.NoPayloadNoDelivery | vambe_for_wc/includes/class-vambe-cart-tracker.php:451-460 | with an empty payload nothing is delivered, only duplicates deleted |
| CartTracker.TrackCartChanges | vambe_for_wc/includes/class-vambe-cart-tracker.php:124-168 | nothing changes without a session, a cart or with an empty cart; when the webhook fires the record becomes exactly the current contents at `now`, not notified; otherwise the session is unchanged |
| CartTracker.NoSessionNoCartNoChange | vambe_for_wc/includes/class-vambe-cart-tracker.php:127-142 | the three early returns leave the state as it was and fire nothing |
| CartTracker.ChangeRearms | vambe_for_wc/includes/class-vambe-cart-tracker.php:149-163 | no record, or different contents, resets the record and fires the webhook, even after a notification |
| CartTracker.UnchangedKeepsRecord | vambe_for_wc/includes/class-vambe-cart-tracker.php:149-173 | unchanged contents keep `last_activity` and `notification_sent` as they were |
| CartTracker.TrackIdempotent | vambe_for_wc/includes/class-vambe-cart-tracker.php:149-173 | tracking the same cart a second time, at any time, changes nothing |
| CartTracker.ClearAbandonedCart | vambe_for_wc/includes/class-vambe-cart-tracker.php:175-180 | the record is removed and every other session value is kept |
| CartTracker.ClearKeepsOthers | vambe_for_wc/includes/class-vambe-cart-tracker.php:177 | clearing keeps every other session value |
| CartTracker.ClearThenTrackStartsFresh | vambe_for_wc/includes/class-vambe-cart-tracker.php:149-177 | after an order, the next non-empty cart starts a fresh record |
| CartTracker.ContactOf | vambe_for_wc/includes/class-vambe-cart-tracker.php:263-269 | the session email when non-empty, else the registered user's email when there is a customer id, else ""; empty fields read as "" |
| CartTracker.MarkNotified | vambe_for_wc/includes/class-vambe-cart-tracker.php:301-311 | only the record's `notification_sent` changes, to true |
| CartTracker.ProcessSingleSession | vambe_for_wc/includes/class-vambe-cart-tracker.php:224-284 | a notice iff the row holds a record that is idle for at least the timeout, not yet notified, and has a phone or an email; then the row is marked; otherwise it is unchanged |
| CartTracker.ProcessAbandonedCarts | vambe_for_wc/includes/class-vambe-cart-tracker.php:182-222 | the last-check time becomes `now`; exactly the due, reachable rows are notified and marked; the other rows stay as they were |
| CartTracker.NoRenotify | vambe_for_wc/includes/class-vambe-cart-tracker.php:248-304 | a notified session is never notified again |
| CartTracker.ScanNoRenotify | vambe_for_wc/includes/class-vambe-cart-tracker.php:219-250 | a second scan, at any later time, notifies none of the rows the first scan notified |
| CartTracker.UnreachableNotNotified | vambe_for_wc/includes/class-vambe-cart-tracker.php:271-274 | no phone and no email means no notice and an unchanged row |
| CartTracker.PhoneSuffices | vambe_for_wc/includes/class-vambe-cart-tracker.php:271-280 | a phone alone is enough for a due record to be notified and marked |
| Webchat.Flag | vambe_for_wc/includes/class-vambe-script-injector.php:121-127 | a stored flag is on iff its stored value is exactly "yes"; a flag never stored is on iff its default is "yes" |
| Webchat.OnlyYesIsOn | vambe_for_wc/includes/class-vambe-script-injector.php:121 | "Yes", "true" or "1" stored is off |
| Webchat.RegistersFooterHook | vambe_for_wc/includes/class-vambe-script-injector.php:31-34 | the footer hook is registered iff the webchat option is stored as "yes" |
| Webchat.SuggestedQuestions | vambe_for_wc/includes/class-vambe-script-injector.php:131-145 | an empty option gives none; at most four questions; each trimmed and non-empty |
| Webchat.QuestionsRoundTrip | vambe_for_wc/includes/class-vambe-script-injector.php:134-145 | questions entered one per line come back as entered, the first four of them |
| Webchat.BlankLineTakesAPlace | vambe_for_wc/includes/class-vambe-script-injector.php:137-143 | a blank line among the first four is dropped and no fifth line moves up |
| Webchat.ClientId | vambe_for_wc/includes/class-vambe-script-injector.php:98-112 | the channel data's client id when it names one, else the stored option with its default |
| Webchat.ChannelId | vambe_for_wc/includes/class-vambe-script-injector.php:101-116 | the first channel when the data names a client and that channel is non-empty; otherwise (no client, no channels, or an empty first channel) the stored option with its default |
| Webchat.InjectShopScript | vambe_for_wc/includes/class-vambe-script-injector.php:87-171 | nothing in admin pages; `chatWithUsText` is present iff the option is non-empty; `suggestedQuestions` is present iff there is at least one question, and there are at most four |
| Webchat.DefaultConfig | vambe_for_wc/includes/class-vambe-script-injector.php:110-128 | with no options and no channel data, the config is the documented default one |
| Webchat.DataWinsOverOptions | vambe_for_wc/includes/class-vambe-script-injector.php:98-105 | channel data naming a client and a first channel overrides both options |
| Webchat.ChannelsIgnoredWithoutClient | vambe_for_wc/includes/class-vambe-script-injector.php:98-116 | channel data with an empty client id leaves both ids to the options, even when it lists channels |
| PluginOptions.CartTimeout | vambe-for-wc.php:31-34 | the timeout is a whole number of hours in seconds, and those hours are the stored ones or 1 |
| PluginOptions.NotifiedAfterStoredHours | vambe_for_wc/includes/class-vambe-cart-tracker.php:243-248 | with the timeout the tracker reads at start-up (`vambe_get_cart_timeout`), an un-notified record of a reachable customer is notified iff it has been idle at least the stored hours times 3600 seconds, one hour when nothing is stored |
| PluginOptions.FewerHoursNotifyNoLater | vambe_for_wc/includes/class-vambe-cart-tracker.php:243-248 | a session notified under some stored hour count is also notified under any smaller one |
| PluginOptions.ApiKey | vambe-for-wc.php:36-38 | the stored key, or "" when none is stored |
| Packaging.FindPlaceholder | server/src/plugin/plugin.service.ts:189 | the result is a placeholder position, a quote, the token and a quote, with no placeholder before it |
| Packaging.ReplacePlaceholder | server/src/plugin/plugin.service.ts:189-200 | with no placeholder the content is unchanged; otherwise the text before and after the first placeholder is kept and the placeholder becomes the quoted key |
| Packaging.NoPlaceholderUnchanged | server/src/plugin/plugin.service.ts:192-200 | with no placeholder, the content is left as it is by both the intended and the written substitution |
| Packaging.OnlyFirstReplaced | server/src/plugin/plugin.service.ts:189-200 | a later placeholder survives the substitution, shifted by the change in length |
| Packaging.AsWrittenWithoutDollar | server/src/plugin/plugin.service.ts:190-200 | for a key without `$` the written code makes the intended substitution |
| Packaging.DollarKeyMangled | server/src/plugin/plugin.service.ts:190-200 | a key holding `$&` comes out with the placeholder pasted into it |
| Packaging.DownloadUrl | server/src/plugin/plugin.service.ts:298-315 | the URL starts with the server URL, `/download/` and the file prefix, ends in `.zip`, and the digits in between read back as the generation time stamp |
| Packaging.ServerUrl | server/src/plugin/plugin.service.ts:302-303 | the `SERVER_URL` setting unless it is missing or empty, else `http://localhost:3003` |
| Packaging.TimestampOfFileName | server/src/plugin/plugin.service.ts:298-299 | the time stamp can be read back from the file name |
| Packaging.FileNamesDistinct | server/src/plugin/plugin.service.ts:298-299 | downloads made at different milliseconds get different names |
| Packaging.PluginPath | server/src/plugin/plugin.service.ts:23-57 | the path is one of the candidates; it exists, or none exists and it is `cwd/../vambe_for_wc`; no candidate earlier in the list exists |
| Packaging.CleanupOldFiles | server/src/plugin/plugin.service.ts:340-358 | the deleted files are exactly the expired ones in directory order, and the count is their number |
| Packaging.ExpiredFilesExact | server/src/plugin/plugin.service.ts:345-358 | a file is deleted iff it is in the directory and strictly older than the limit |
| Packaging.ThresholdIsStrict | server/src/plugin/plugin.service.ts:342-350 | a file exactly two hours old is kept; one a millisecond older is deleted |
| DownloadApi.DownloadPlugin | server/src/plugin/plugin.controller.ts:40-99 | a missing key gives 401 "API key is required", checked first; a different key gives 401 "Invalid API key"; a missing client key then gives 400; success iff every check passes and the packager returns a URL, which is returned; every 500 carries "Failed to generate plugin" |
| DownloadApi.Rethrow | server/src/plugin/plugin.controller.ts:87-99 | 401 and 400 errors pass through unchanged, and anything else becomes a 500 "Failed to generate plugin" |
| DownloadApi.UnconfiguredRejectsAll | server/src/plugin/plugin.controller.ts:49-59 | with no `API_KEY` configured every request gets a 401 |
| DownloadApi.BadRequestOnlyAfterKey | server/src/plugin/plugin.controller.ts:51-68 | a 400 only ever reaches a caller whose API key was accepted |
| DownloadApi.ChecksBeforeGenerate | server/src/plugin/plugin.controller.ts:51-81 | a request failing a check gets the same answer whatever the packager would do |
| DownloadApi.PackagerFailureIs500 | server/src/plugin/plugin.controller.ts:78-99 | an internal failure of the packager reaches the caller as a 500 |
| DownloadApi.StatusesAreKnown | server/src/plugin/plugin.controller.ts:51-99 | every error is a 400, 401 or 500 |

## Left out

- I/O and the host. These are parameters of the model:
  - WordPress options;
  - the WooCommerce session store and its SQL query;
  - `wc_get_product`, `add_to_cart` and the `apply_filters` hooks;
  - `sanitize_text_field`;
  - `get_user_by`;
  - the file-system checks.

  Their own behaviour is not modelled.
- `setcookie` headers are modelled as cookie records (name, value, lifetime). Path, domain, `secure`, `httponly` and `samesite` are left out.
- `wc_add_to_cart_message`, `calculate_totals` and the `remove_action`/`add_action` pair around the loop have no effect on the state the model tracks.
- `wc_stock_amount` is treated as the identity on the quantity `absint` produced. Its rounding of fractional stock amounts is not modelled.
- The `exit` after a redirect and the cookies it skips are modelled. The redirect itself (`wp_safe_redirect`) is not.
- `md5(serialize(...))` is replaced by equality of cart contents.
- A session's `cart_tracking` that is a serialized string is treated as already unserialized. A record lacking `last_activity` is treated like a missing record.
- The webhook payload contents are not modelled. These are the cart totals, currency, store name and timestamps built by `vambe_trigger_cart_webhook` and the `vambe_webhook_payload` filter. Only whether a payload exists is modelled.
- `WC_Webhook::deliver` is an opaque call that may throw. Its HTTP response is only logged.
- `fetch_channels_data` and `wp_remote_get` are network calls. The channel data is an input.
- The HTML and JavaScript emitted by `inject_shop_script` are not modelled: `esc_js`, `json_encode` and the `webchat.js` tag. The model stops at the configuration values.
- `PluginOptions.CartTimeout`: a stored hour count is an integer. PHP would also multiply a fractional or numeric-string option, and fail on a non-numeric one.
- `Stock.GetProductsStock`: the `try`/`catch` that turns an exception into a 500 is left out, because the host calls it wraps cannot throw in the model.
- The product listing (`get_simplified_products`), the REST route registration and the settings page are outside this model.
- `Php.Absint`: PHP reads a numeric prefix with a fraction or an exponent as a float and then converts it to an integer. The model computes the exact value cut toward zero instead. Float rounding of long mantissas, saturation or overflow of values beyond the 64-bit range, and `INF`/`NAN` are not modelled. Ids are unbounded naturals.
- `Php.IsNumeric`: follows PHP 8, which accepts trailing white space (`"42 "`). PHP 7.4, the oldest version the plugin declares, rejects it. Leading white space is accepted by both.
- `Stock.NonNumericPartIsZero`: no longer covers a part that starts with a decimal point followed by a digit. `absint` reads such a part as a fraction, and with an exponent (`".5e1"`) it can ask for a non-zero product.
- The packaging server's directory copy, zip creation, `fs` errors and the `setInterval` scheduling of the cleanup are I/O. The plugin path, the time stamp and the directory listing are inputs. `path.resolve` is a parameter.
- `Packaging.CleanupOldFiles`: modification times are whole milliseconds. Node reports them as floating-point numbers.
- `DownloadApi.DownloadPlugin`: a `client_api_key` of a non-string JSON type is not modelled. The body field is an optional string.
- Logging throughout, and the constructor's masked logging of the configured key.

## Findings

| source | as written | input that shows it | evidently intended | confidence | as-written member | corrected member |
|---|---|---|---|---|---|---|
| server/src/plugin/plugin.service.ts:190-200 | the replacement string `'${clientApiKey}'` is passed to `String.prototype.replace`, which expands `$&`, `$$`, `` $` `` and `$'` inside it | client key `a$&b` on content `'{{VAMBE_CLIENT_TOKEN}}'` gives `'a'{{VAMBE_CLIENT_TOKEN}}'b'` | the key is written literally: `'a$&b'` | not executed | Packaging.ReplaceAsWritten (shown by Packaging.DollarKeyMangled) | Packaging.ReplacePlaceholder |
