# steam_work_example in Dafny

A model of the core of a Flet desktop client for Steam, written in Python.
The model covers these parts:

- **Accounts.** `Account` keeps credentials and an HTTP session with cookies. It caches whether the session is alive for 30 seconds and memoises the web token and wallet information. An account is saved to and deleted from the accounts table.
- **Login.** `CreateSteamSession` starts a Node helper script for a QR, password or refresh-token login. It parses the helper's stdout lines (the QR URL, the `Set-Cookie` lines, the tokens) onto an account. It turns the helper's end (exit code, timeout, launch failure) into callback notifications. A busy flag guards against overlapping logins.
- **Event bus.** `CallbackManager` is a dictionary of callback lists keyed by event. `trigger` hands each callback of an event to a thread pool.
- **Settings.** `Config` is the typed settings registry over the key/value settings store. Each write notifies the key's callbacks.
- **Apps.** `AppDetails` holds the store details of one application, saved to and deleted from the local apps table. The app-id selector (`AppIDSelector`) picks a saved app or a custom app id or store URL.
- **Profiles.** The profile reader has early exits and `xml_to_dict`.
- **Inventory.** Item stacks (`InventoryItemRgDescriptions` and `InventoryItem`) are split, merged and reduced by asset id. `InventoryManager` merges the inventory's pages. The inventory page sorts its rows.
- **Market.** This covers market listings and order books, and the market page's filter and sort.
- **Selling.** Prices convert between what the buyer pays and what the seller receives under Steam's fee. The inventory page sells through its "sell all" row and its single-item sell dialog.
- **Trading.** The trade basket builds the trade-offer payload and the trade comment. Items are picked into a trade one row at a time or spread over many rows.

Network responses, the clock, the helper process, `json.loads` and the SQLite tables are modelled as parameters or as abstract maps. Each callback call or thread-pool submission is recorded in order rather than run.

The stateful objects are Dafny classes, and their methods are proved against specification functions. Those include `Account`, `CreateSteamSession`, `CallbackManager`, `Config`, `AppDetails`, `InventoryItemRgDescriptions`, `InventoryManager`, the sell row and dialog, and the trade basket. The pure helpers are functions with lemmas.

Two behaviours of the code are evidently unintended; they are listed under "## Findings". Both the code as written and the intended behaviour are modelled. The class methods follow the intended behaviour:
- registering a session-expired callback on an `Account` that has no such method;
- `unregister` raising when a handler is missing.

The inventory merge (`InventoryManager`, steam_api_utility.py) appends every asset of a new page without removing asset ids it has already seen. The model does the same, so a repeated asset id across pages gives a repeated unit.

## Model

| member | source | states |
|---|---|---|
| SteamAccount.Session.constructor | app/core/manager_class/account_class.py:31 | a new session starts with an empty cookie jar |
| SteamAccount.Session.Unpickled | app/database/sqlite_manager.py:165-169 | the session rebuilt from a stored record is a new object whose jar holds exactly the stored cookies |
| SteamAccount.Session.SetCookie | app/package/steam_session/manager_session.py:205-207 | the cookie built from a helper's line is appended to the session's jar and nothing else in the jar changes |
| SteamAccount.SkipSpaces | app/core/manager_class/account_class.py:61 | the `\s*` of the token pattern: the returned index is the first non-blank at or after `i`, and everything skipped is blank |
| SteamAccount.QuoteAt | app/core/manager_class/account_class.py:61 | the `[^"]+` run of the token pattern ends at the first `"` at or after `i`, and contains no quote |
| SteamAccount.TokenAt | app/core/manager_class/account_class.py:61-62 | a token matched at a position is non-empty and has no `"` in it |
| SteamAccount.TokenSearch | app/core/manager_class/account_class.py:61-62 | the leftmost match of `loyalty_webapi_token\s*=\s*"([^"]+)"` yields a non-empty, quote-free group |
| SteamAccount.TokenOfPage | app/core/manager_class/account_class.py:61-65 | a page that starts with `loyalty_webapi_token`, blanks, `=`, blanks and a quoted token yields exactly that token |
| SteamAccount.TokenAtParts | app/core/manager_class/account_class.py:61-62 | when the key, `=`, opening quote and closing quote sit at the given positions, the search returns the text between the quotes |
| SteamAccount.PageKey | app/core/manager_class/account_class.py:61 | the built page starts with the token key |
| SteamAccount.PageEquals | app/core/manager_class/account_class.py:61 | after the key and its blanks, the page has `=` at the expected index |
| SteamAccount.PageOpen | app/core/manager_class/account_class.py:61 | after `=` and its blanks, the page has the opening quote at the expected index |
| SteamAccount.PageClose | app/core/manager_class/account_class.py:61 | the closing quote follows the token, and the text between the quotes is the token |
| SteamAccount.SpacesRun | app/core/manager_class/account_class.py:61 | a blank run that ends at a non-blank is skipped exactly to that non-blank |
| SteamAccount.QuoteRun | app/core/manager_class/account_class.py:61 | a quote-free run ends exactly at the next quote |
| SteamAccount.CloseAt | app/core/manager_class/account_class.py:78 | the lazy `.*?});` stops at an occurrence of `};` at or after `j` |
| SteamAccount.WalletAt | app/core/manager_class/account_class.py:78-81 | a wallet match starting at `i` yields a group that starts with `{` and ends with `}` |
| SteamAccount.WalletSearch | app/core/manager_class/account_class.py:78-81 | the leftmost `var g_rgWalletInfo = ({.*?});` match yields a braced group |
| SteamAccount.WalletOfPage | app/core/manager_class/account_class.py:78-81 | a page carrying `var g_rgWalletInfo = {inner};` with no newline or `;` inside yields exactly `{inner}` |
| SteamAccount.CloseRun | app/core/manager_class/account_class.py:78 | when no newline or `;` comes before the first `};`, the lazy match closes there |
| SteamAccount.AccountStore.constructor | app/core/manager_class/account_class.py:12-22 | the accounts table starts empty |
| SteamAccount.Account.constructor | app/core/manager_class/account_class.py:26-40 | a new account has no credentials, an empty fresh session, no cached token or wallet, and no liveness check yet |
| SteamAccount.Account.FalseNeverCached | app/core/manager_class/account_class.py:44 | a failed last check is never served from the cache, whatever the clock says |
| SteamAccount.Account.IsAliveSession | app/core/manager_class/account_class.py:42-52 | a true check younger than 30 s is returned without a request, and nothing changes. Otherwise the check time is set to now before the home request. If that request raises, the exception is passed on (`raised`), the last status is kept and no event fires. Otherwise the result is "response ok and the lower-cased login occurs in the lower-cased page", and it is recorded as the status. The session-expired event is triggered exactly when `is_callback` holds and the result is false. A fresh true result stays cached for the next 30 s. Credentials, session and wallet are untouched |
| SteamAccount.Account.GetSteamWebToken | app/core/manager_class/account_class.py:54-69 | a truthy cached token is returned with no other effect. Otherwise the liveness check runs with its effects (check time, status, session-expired event). If its request raises, that is passed on and nothing is returned. A dead session returns None and leaves the token as it was. A new token is the first pattern match with `&quot;` removed, and it is cached. It comes only from an alive session. When the session is alive and the page matches, a token is always returned. Password, steam id, refresh token, session and wallet are untouched |
| SteamAccount.Account.LoadWalletInfo | app/core/manager_class/account_class.py:71-88 | a non-empty cached wallet is returned with no other effect. Otherwise the liveness check runs with its effects, and a raising request is passed on. A dead session returns None. A new wallet is the parsed group of the first match on an ok market page of an alive session. It sets the cache, `wallet_currency` and `wallet_country` from its keys (None when absent). A failure changes none of the three. An alive session, an ok matching page and a parsable group always yield a wallet. Credentials, session and token are untouched |
| SteamAccount.Account.GetSaveData | app/core/manager_class/account_class.py:90-97 | the saved record carries the four credentials and a copy of the session's cookie jar, as pickling the record keeps it |
| SteamAccount.Account.SetSaveData | app/core/manager_class/account_class.py:99-106 | the four credentials are taken from the record. When the record has a session, a new session holding its cookies replaces the old one; otherwise the old session stays. Reading the save data back gives the record, with the old session's cookies when it had none. Caches and the liveness check are untouched |
| SteamAccount.Account.Save | app/core/manager_class/account_class.py:108-119 | an empty or missing login leaves the table alone; otherwise the table maps the login to the save data as a record that decrypts, and the other rows stay |
| SteamAccount.Account.Delete | app/core/manager_class/account_class.py:121-130 | an empty or missing login leaves the table alone; otherwise exactly the login's row is removed |
| SteamAccount.Load | app/core/manager_class/account_class.py:132-148 | an unknown login gives None and raises nothing. A row that does not decrypt raises, because `decrypt_data` returns None and `set_save_data(None)` fails, and gives no account. A row that decrypts gives a fresh account with the stored credentials and a fresh session holding the stored cookies, or an empty jar when the record had no session |
| SteamAccount.SaveThenLoad | app/core/manager_class/account_class.py:108-148 | saving an account with a login and loading it by that login gives back a fresh account with the same credentials, and a fresh session with the same cookies that is not the saved account's session object |
| Login.Spawns | app/package/steam_session/manager_session.py:97-120 | firing an event starts one call per registered callback, in list order, each with the event's argument |
| Login.SpawnsNext | app/package/steam_session/manager_session.py:97-120 | the calls for the first i+1 callbacks are the calls for the first i followed by the call for callback i |
| Login.DeliverOne | app/package/steam_session/manager_session.py:97-120 | delivering one notice starts exactly the calls of that event's list |
| Login.DeliverAppend | app/package/steam_session/manager_session.py:97-120 | delivering two runs of notices one after the other starts the calls of the first run, then those of the second |
| Login.DeliverMore | app/package/steam_session/manager_session.py:97-120 | a call log built from notices and then extended by more notices equals the log of all the notices together |
| Login.RegisteredIn | app/package/steam_session/manager_session.py:31-62 | `register_callback_*` keeps a duplicate-free list duplicate-free, a callable ends up in the list, and nothing registered is lost |
| Login.UnregisteredIn | app/package/steam_session/manager_session.py:64-95 | a non-callable or absent function leaves the list as it is; a registered callable shrinks it by one |
| Login.UnregisterClean | app/package/steam_session/manager_session.py:64-95 | on a duplicate-free list, removal keeps it duplicate-free, the function is gone, and every other function keeps its membership |
| Login.RegisterUnregister | app/package/steam_session/manager_session.py:31-95 | registering a new callable and then unregistering it restores the list exactly |
| Login.RegisterIdempotent | app/package/steam_session/manager_session.py:31-62 | registering the same function twice is the same as registering it once |
| Login.Attribute | app/package/steam_session/manager_session.py:132-137 | a cookie attribute with no `=` becomes its lower-cased text flagged True; otherwise it splits at the first `=` and the value is the rest of the text |
| Login.CookieOf | app/package/steam_session/manager_session.py:123-141 | a line yields no cookie exactly when its first `; `-separated part has no `=` |
| Login.ParseCookieLine | app/package/steam_session/manager_session.py:123-141 | the loop over the attribute parts builds the same cookie as the specification `CookieOf` |
| Login.SplitAtEquals | app/package/steam_session/manager_session.py:130 | `split('=', 1)` on a text whose left part has no `=` gives back the two parts |
| Login.SplitCookieLine | app/package/steam_session/manager_session.py:124 | a `name=value; Domain=d; Path=p` line splits on `; ` into its three parts |
| Login.LowerWord | app/package/steam_session/manager_session.py:135 | lower-casing a word character by character gives the expected word |
| Login.DomainAttribute | app/package/steam_session/manager_session.py:133-135 | `Domain=d` becomes the attribute `domain` with value d |
| Login.PathAttribute | app/package/steam_session/manager_session.py:133-135 | `Path=p` becomes the attribute `path` with value p |
| Login.DomainAndPath | app/package/steam_session/manager_session.py:132-137 | the two attribute parts build the map `{domain: d, path: p}` |
| Login.CookieRoundTrip | app/package/steam_session/manager_session.py:123-141 | printing a cookie as `name=value; Domain=d; Path=p` and parsing it gives back the same name, value, domain and path |
| Login.CookieDefaults | app/package/steam_session/manager_session.py:138-140 | a cookie line with no attributes gets domain `''` and path `/` |
| Login.KeyBeforeCookie | app/package/steam_session/manager_session.py:191-207 | a line starting with `steamID` or `refreshToken` is taken as a key line, even when it also holds `Domain=`, unless an earlier branch claims it |
| Login.QrAgreesWithPassword | app/package/steam_session/manager_session.py:186-207 | the QR and password readers treat every line alike, except `http` lines and confirmation requests |
| Login.RefreshAgreesWithPassword | app/package/steam_session/manager_session.py:338-351 | the refresh reader only sets the steam id or refresh token, adds a cookie, or skips, and it agrees with the password reader on those lines |
| Login.KeyValue | app/package/steam_session/manager_session.py:197 | `line.split("=")[1]` fails exactly when the line has no `=` |
| Login.KeyValueTruncates | app/package/steam_session/manager_session.py:197 | the stored value is the stripped text between the first and the second `=`, so anything after a second `=` is dropped |
| Login.Step | app/package/steam_session/manager_session.py:188-207 | once the reader has stopped, later lines change nothing |
| Login.StepByAction | app/package/steam_session/manager_session.py:188-207 | a live reader strips the line, skips it when empty, and otherwise applies the action the line dispatches to |
| Login.ReplayAfterStop | app/package/steam_session/manager_session.py:186-207 | a reader that stopped on a prefix ignores every later line |
| Login.ReplayNext | app/package/steam_session/manager_session.py:188 | reading one more line is one more step |
| Login.ReplayRest | app/package/steam_session/manager_session.py:186-207 | once the reader stops, the remaining lines leave the state unchanged |
| Login.SameLines | app/package/steam_session/manager_session.py:188 | the same lines give the same reader state |
| Login.ExtendsQuietly | app/package/steam_session/manager_session.py:196-207 | a line that adds no notice and at most one cookie keeps the reader's shape |
| Login.ExtendsByNotice | app/package/steam_session/manager_session.py:191-195 | a QR or confirmation notice raised by the reader keeps the reader's shape |
| Login.ActExtends | app/package/steam_session/manager_session.py:186-207 | each action a line can dispatch to only appends reader events, adds at most one cookie, and never renames the account in the refresh flow |
| Login.StepExtends | app/package/steam_session/manager_session.py:188-207 | one step of any reader keeps its shape |
| Login.ExtendsTrans | app/package/steam_session/manager_session.py:188 | the shape relation composes over successive lines |
| Login.ReplayShape | app/package/steam_session/manager_session.py:186-207 | over any output the reader only appends its own events (QR code ready, device or email confirmation), adds cookies one at a time, and in the refresh flow never touches the account name |
| Login.EarlyOutcome | app/package/steam_session/manager_session.py:166-170 | a missing script or a failed launch ends in an authenticated-error notice |
| Login.RunOutcome | app/package/steam_session/manager_session.py:215-229 | exit code 0 and nothing else authenticates, and it passes the account. In the QR flow, a timeout or a non-zero exit gives the QR-timeout notice; in the other flows it gives an authenticated-error notice |
| Login.Outcome | app/package/steam_session/manager_session.py:161-235 | the notices are the reader's (when the helper ran) followed by one final outcome. It is authenticated exactly when the script exists and the helper exits 0; QR failures time out; every other failure is an authenticated error |
| Login.AsWrittenNeverAuthenticates | app/package/steam_session/manager_session.py:183-184 | as written, the QR and password flows call a method `Account` lacks, so no run ever authenticates, whereas the intended flow authenticates on exit 0 |
| Login.AsWrittenRefreshAlsoFails | app/package/steam_session/manager_session.py:368-372 | as written, a successful refresh notifies authenticated and then raises, adding an authenticated error the intended flow never sends |
| Login.OutcomeFailureIsLast | app/package/steam_session/manager_session.py:215-235 | a run that does not authenticate sends only reader events and then a single failure notice, last |
| Login.CreateSteamSession.constructor | app/package/steam_session/manager_session.py:15-29 | a new orchestrator is idle, has started no call, and all eight lists are empty |
| Login.CreateSteamSession.Register | app/package/steam_session/manager_session.py:31-62 | exactly the one list gains the function as `RegisteredIn` says; the busy flag and the call log are untouched |
| Login.CreateSteamSession.Unregister | app/package/steam_session/manager_session.py:64-95 | exactly the one list loses the function, which is then absent when callable; nothing else changes |
| Login.CreateSteamSession.Fire | app/package/steam_session/manager_session.py:97-120 | firing appends one call per callback of that event's list to the log and changes nothing else |
| Login.CreateSteamSession.NotifyLine | app/package/steam_session/manager_session.py:191-195 | a QR url or confirmation line fires exactly its notice |
| Login.CreateSteamSession.KeyLine | app/package/steam_session/manager_session.py:196-204 | a key line sets its field to the stripped value, or stops the reader when the line has no `=`. Session, password, caches and liveness are untouched |
| Login.CreateSteamSession.CookieLine | app/package/steam_session/manager_session.py:205-207 | a `Domain=` line appends the parsed cookie, or stops the reader when no cookie can be built |
| Login.CreateSteamSession.ReadLine | app/package/steam_session/manager_session.py:188-207 | one line of helper output updates the account and the call log exactly as one `Step` of the reader specification |
| Login.CreateSteamSession.ApplyLine | app/package/steam_session/manager_session.py:190-207 | applying a dispatched action updates the account and the call log exactly as `Act` |
| Login.CreateSteamSession.ReadAt | app/package/steam_session/manager_session.py:188-207 | after line i the account and log match the replay of the first i+1 lines |
| Login.CreateSteamSession.ReadStdout | app/package/steam_session/manager_session.py:186-207 | after the whole output, the account's name, steam id, refresh token and cookies, and the calls started, are those of `Replay` of the output |
| Login.CreateSteamSession.RunHelper | app/package/steam_session/manager_session.py:165-235 | a helper that did not run leaves the account alone; one that ran leaves it as the replay says. The calls started are the `Outcome` notices, and the busy flag is cleared |
| Login.CreateSteamSession.RunToEnd | app/package/steam_session/manager_session.py:209-229 | the account is the replay of the whole output, and the calls are the reader's notices followed by the `RunOutcome` notice |
| Login.CreateSteamSession.CreateQrCode | app/package/steam_session/manager_session.py:161-235 | when busy, nothing happens and no account is returned. Otherwise a fresh account with no password ends with the replayed name, steam id, token and cookies (all empty when the helper did not run). The `Outcome` notices are delivered and the busy flag is cleared |
| Login.CreateSteamSession.CreateLoginPassword | app/package/steam_session/manager_session.py:237-309 | when busy, nothing happens. Otherwise a fresh account holding the given login and password ends with the replayed fields (the login alone when the helper did not run). The `Outcome` notices are delivered and the busy flag is cleared |
| Login.CreateSteamSession.CreateRefreshToken | app/package/steam_session/manager_session.py:311-378 | with no account, no truthy refresh token, or a busy orchestrator, nothing happens. A live session (cached or checked) notifies authenticated and returns. A raising liveness request is passed on (`raised`, exactly in that case): the check time is set, nothing else about the account changes, nothing is notified and the busy flag is not taken. When checked, the check time and status are recorded and session-expired is triggered when not alive. Otherwise the helper's fields are replayed onto the account, and the `Outcome` notices are delivered |
| EventBus.Calls | app/callback/callbacks.py:46-47 | one submission per callback, in list order, each with the trigger's arguments |
| EventBus.Triggered | app/callback/callbacks.py:43-47 | an unknown event submits nothing; a known one submits exactly one call per registered callback |
| EventBus.RemoveFirst | app/callback/callbacks.py:41 | `list.remove` drops exactly one occurrence (the multiset loses one copy) and leaves a list without the element as it is |
| EventBus.RemoveAppended | app/callback/callbacks.py:37-41 | removing a just-appended callback that was not there before restores the list |
| EventBus.RemoveAppendedDuplicate | app/callback/callbacks.py:37-41 | when the callback was already listed, `remove` takes the earlier copy and keeps the one just appended |
| EventBus.Registered | app/callback/callbacks.py:34-37 | the callback is appended at the end of its event's list (which is created when missing); every other event is untouched |
| EventBus.UnregisteredAsWritten | app/callback/callbacks.py:39-41 | as written: an unknown event is a no-op, a listed callback loses its first occurrence, and a known event without the callback raises |
| EventBus.Unregistered | app/callback/callbacks.py:39-41 | the intended removal: a listed callback loses its first occurrence, and anything else leaves the lists as they are |
| EventBus.UnregisterMissingRaises | app/callback/callbacks.py:39-41 | an event with another callback registered makes the as-written removal of a missing callback raise |
| EventBus.UnregisteredAgrees | app/callback/callbacks.py:39-41 | whenever the as-written removal does not raise, it gives the intended result |
| EventBus.RegisterThenUnregister | app/callback/callbacks.py:34-41 | registering a new callback and then unregistering it restores the lists (up to an empty list left for the event) |
| EventBus.CallbackManager.constructor | app/callback/callbacks.py:27-32 | the shared manager starts with no callbacks and no submissions |
| EventBus.CallbackManager.Register | app/callback/callbacks.py:34-37 | the lists become `Registered`; nothing is submitted |
| EventBus.CallbackManager.Unregister | app/callback/callbacks.py:39-41 | the lists become the intended `Unregistered`; nothing is submitted |
| EventBus.CallbackManager.UnregisterAsWritten | app/callback/callbacks.py:39-41 | it raises exactly when the as-written function does, and then leaves the lists alone; otherwise the lists follow the as-written function |
| EventBus.CallbackManager.Trigger | app/callback/callbacks.py:43-47 | the lists are unchanged and the submissions grow by `Triggered` |
| EventBus.TriggerAfterRegister | app/callback/callbacks.py:34-47 | after a registration, a trigger submits the earlier callbacks and then the new one |
| EventBus.Singleton.constructor | app/callback/callbacks.py:25 | no instance exists yet |
| EventBus.Singleton.Get | app/callback/callbacks.py:27-32 | the first call creates an empty manager; every later call returns that same manager |
| Settings.Written | app/database/config_manager.py:26-30 | the setter saves the key only for a value of the declared type; every other key keeps its value |
| Settings.ReadDefault | app/database/config_manager.py:20-24 | a key with nothing stored reads as the property's default |
| Settings.WriteThenRead | app/database/config_manager.py:20-30 | a well-typed value written to a property reads back as that value (in the abstract store) |
| Settings.IllTypedWriteIsLost | app/database/config_manager.py:29-30 | a value of the wrong type is not stored: every property reads as before |
| Settings.WriteIsolated | app/database/config_manager.py:26-30 | writing one key never changes what another key reads |
| Settings.BoolStoredAsInt | app/database/config_manager.py:29-30 | `True` passes the `isinstance` test of an `int` property, so it is stored rather than dropped |
| Settings.IntervalDefault | app/database/config_manager.py:39 | on an empty store, `interval_update_inventory` reads `'Not Update'` |
| Settings.Added | app/database/config_manager.py:94-99 | adding a property whose key already exists changes nothing; otherwise the new property is added under its key |
| Settings.AddIdempotent | app/database/config_manager.py:94-95 | adding a second property under the same key keeps the first one |
| Settings.SettingStore.constructor | app/database/sqlite_manager.py:105-118 | the settings store starts empty |
| Settings.Write | app/database/config_manager.py:26-33 | the store becomes `Written`, and the key's callbacks get one submission with the value, whether or not it was stored |
| Settings.Config.constructor | app/database/config_manager.py:38-42 | a new config has no added properties; the class itself declares `interval_update_inventory` |
| Settings.Config.AddProperty | app/database/config_manager.py:82-99 | the registry becomes `Added`; the class attribute is set only for a new key |
| Settings.Config.GetProperty | app/database/config_manager.py:101-115 | an unknown key gives None; a known one gives what its getter reads |
| Settings.Config.SetProperty | app/database/config_manager.py:117-119 | an unknown key changes nothing and notifies nobody; a known one is written through its setter, which always notifies |
| Settings.Config.IntervalUpdate | app/database/config_manager.py:39 | the refresh interval is read through the getter and defaults to `'Not Update'` |
| Settings.Config.RegisterCallback | app/database/config_manager.py:44-64 | the callback is registered on the bus under the key name |
| Settings.Config.UnregisterCallback | app/database/config_manager.py:66-80 | the callback is removed from the key's list as the intended `Unregistered` says; nothing is submitted |
| Settings.SetThenGet | app/database/config_manager.py:101-119 | setting a known property to a value of its type and getting it again returns that value |
| AppCatalog.FinalFormatted | app/core/manager_class/app_details_class.py:26 | the price text is `final_formatted` of the price overview, or `''` when the overview or the key is missing |
| AppCatalog.AppStore.constructor | app/core/manager_class/app_details_class.py:8-17 | the apps table starts empty |
| AppCatalog.AppDetails.constructor | app/core/manager_class/app_details_class.py:21-27 | the object keeps the dictionary it was built from; its fields are read from it with the source's defaults |
| AppCatalog.AppDetails.Save | app/core/manager_class/app_details_class.py:49-61 | an app that is not real, or a write the table refuses, changes nothing. Otherwise the table maps the appid to the dictionary and the app-added event is triggered with the app |
| AppCatalog.AppDetails.Delete | app/core/manager_class/app_details_class.py:62-71 | an app that is not real, or a delete the table refuses, changes nothing. Otherwise the appid's row is gone and the app-removed event is triggered |
| AppCatalog.Load | app/core/manager_class/app_details_class.py:72-88 | an unknown appid gives None and raises nothing. A row that does not decrypt raises, because `decrypt_data` returns None and `cls(None)` fails, and gives no app. A readable row gives a fresh app built from its dictionary |
| AppCatalog.SaveThenLoad | app/core/manager_class/app_details_class.py:49-88 | a real app saved and loaded back has the same dictionary and the same appid, name, image, price and store url |
| AppCatalog.DeleteThenLoad | app/core/manager_class/app_details_class.py:62-88 | once a real app is deleted, loading it gives None |
| ProfileXml.Find | app/package/data_collectors/steam_profile_info.py:27 | `child.tag in data`: the index found holds the tag, and no index holds it when none is found |
| ProfileXml.Tags | app/package/data_collectors/steam_profile_info.py:25-27 | the children's tags, in document order |
| ProfileXml.Values | app/package/data_collectors/steam_profile_info.py:26-33 | the item data of the children with a given tag, never more of them than there are children |
| ProfileXml.Keys | app/package/data_collectors/steam_profile_info.py:24-34 | the dictionary's keys, in insertion order |
| ProfileXml.FirstSeenDistinct | app/package/data_collectors/steam_profile_info.py:27-33 | the tags in first-seen order have no repeats |
| ProfileXml.FirstSeenHas | app/package/data_collectors/steam_profile_info.py:27-33 | a tag is among the first-seen tags exactly when some child has it |
| ProfileXml.ValuesPresent | app/package/data_collectors/steam_profile_info.py:25-33 | a tag has collected values exactly when some child carries it |
| ProfileXml.ItemDataNotList | app/package/data_collectors/steam_profile_info.py:26 | one child's data is its text or its own dictionary, never a list |
| ProfileXml.ValuesNotList | app/package/data_collectors/steam_profile_info.py:26 | none of the collected values is a list |
| ProfileXml.InsertKeys | app/package/data_collectors/steam_profile_info.py:27-33 | inserting under a known tag keeps the keys; a new tag is appended to them |
| ProfileXml.AppendOne | app/package/data_collectors/steam_profile_info.py:25-33 | one more child adds its tag at the end, and adds its data to the values of its own tag only |
| ProfileXml.InsertFound | app/package/data_collectors/steam_profile_info.py:27-31 | a repeated tag keeps its single entry, which becomes the collapsed values so far plus the new one (a pair, then a growing list) |
| ProfileXml.FindDistinct | app/package/data_collectors/steam_profile_info.py:27 | with distinct keys, the tag is found at its only index |
| ProfileXml.CollapseAppend | app/package/data_collectors/steam_profile_info.py:28-31 | appending to an existing list, or pairing a single value with the new one, is the collapse of all the values |
| ProfileXml.InsertNew | app/package/data_collectors/steam_profile_info.py:32-33 | a first-seen tag is stored with its one value |
| ProfileXml.InsertValue | app/package/data_collectors/steam_profile_info.py:27-33 | after inserting a child, its tag's entry is the collapse of all the values with that tag so far |
| ProfileXml.InsertGroups | app/package/data_collectors/steam_profile_info.py:25-33 | one more child keeps the grouping invariant: distinct keys in first-seen order, each holding the collapse of its tag's values |
| ProfileXml.InsertGroupsKeys | app/package/data_collectors/steam_profile_info.py:27-33 | after one more child, the keys are still the first-seen tags |
| ProfileXml.InsertOther | app/package/data_collectors/steam_profile_info.py:27-33 | entries of other tags are untouched by an insertion |
| ProfileXml.InsertEntry | app/package/data_collectors/steam_profile_info.py:25-33 | after one more child, every entry holds the collapse of its tag's values over the longer prefix |
| ProfileXml.SliceStep | app/package/data_collectors/steam_profile_info.py:25 | a prefix one longer is the shorter prefix plus the next child |
| ProfileXml.GroupsStep | app/package/data_collectors/steam_profile_info.py:25-33 | one iteration of the loop keeps the grouping invariant |
| ProfileXml.FoldGroups | app/package/data_collectors/steam_profile_info.py:24-33 | after the first n children, the dictionary groups exactly those children |
| ProfileXml.XmlToDictGroups | app/package/data_collectors/steam_profile_info.py:23-34 | `xml_to_dict` has one key per distinct child tag, in first-seen order and with no other keys. Each key holds the single value of its tag, or the list of all of them, in document order |
| ProfileXml.ProfileInfo | app/package/data_collectors/steam_profile_info.py:6-36 | a failed response, a content type without `text/xml`, or a fatal-error page gives `{}`; anything else gives `xml_to_dict` of the root |
| ProfileXml.MissingContentType | app/package/data_collectors/steam_profile_info.py:13-16 | a response with no Content-Type header gives `{}` |
| ItemStack.TotalAppend | app/package/data_collectors/steam_api_utility.py:388-390 | the amount sum over two runs of units is the sum of the two sums |
| ItemStack.TotalBelowPositive | app/package/data_collectors/steam_api_utility.py:388-390 | the plain sum never exceeds the sum of the positive amounts, and equals it when no amount is negative |
| ItemStack.TakeShape | app/package/data_collectors/steam_api_utility.py:408-420 | `get_amount_items` keeps every unit and its ids, changing only amounts. Each new amount is between 0 and the old one, and a unit with no positive amount gets 0 |
| ItemStack.TakeTotal | app/package/data_collectors/steam_api_utility.py:408-420 | the units taken add up to the request, capped at the positive amount available, and to 0 for a request of 0 or less |
| ItemStack.TakeAmount | app/package/data_collectors/steam_api_utility.py:388-420 | `get_amount` of the split stack is the request, capped by what the stack has, and 0 for a non-positive request |
| ItemStack.TakeFirst | app/package/data_collectors/steam_api_utility.py:411-419 | the three branches of the loop body on the first unit: zeroed, filled up to the rest of the request, or taken whole |
| ItemStack.Find | app/package/data_collectors/steam_api_utility.py:425 | `next(... if i.assetid == item.assetid)` finds the first unit with that asset id, or reports that there is none |
| ItemStack.SubtractOneShape | app/package/data_collectors/steam_api_utility.py:433-436 | removing one incoming unit lowers only the matching unit's amount, by the incoming amount, and keeps asset ids distinct |
| ItemStack.AddOneShape | app/package/data_collectors/steam_api_utility.py:424-429 | adding a unit whose asset id is present raises only that unit's amount |
| ItemStack.KnownSameIds | app/package/data_collectors/steam_api_utility.py:424-436 | updating amounts keeps every incoming asset id known |
| ItemStack.KnownTail | app/package/data_collectors/steam_api_utility.py:424-436 | the rest of the incoming units stay known, and the first one is found |
| ItemStack.AddUnitsCons | app/package/data_collectors/steam_api_utility.py:424-429 | adding a run of units is adding the first, then the rest |
| ItemStack.RemoveUnitsCons | app/package/data_collectors/steam_api_utility.py:433-436 | removing a run of units is removing the first, then the rest |
| ItemStack.RemoveUnitsPointwise | app/package/data_collectors/steam_api_utility.py:430-436 | after `remove_items`, each unit's amount has dropped by the total the other stack holds for its asset id; units missing from the stack are ignored |
| ItemStack.AddUnitsPointwise | app/package/data_collectors/steam_api_utility.py:421-429 | when every incoming asset is already present, each unit's amount rises by the total incoming for its asset id |
| ItemStack.RemoveUnitsTotal | app/package/data_collectors/steam_api_utility.py:430-436 | when every incoming asset is present, the stack's sum drops by the incoming sum |
| ItemStack.AddUnitsTotal | app/package/data_collectors/steam_api_utility.py:421-429 | the stack's sum rises by the incoming sum, whether units are merged or appended |
| ItemStack.AddOneTotal | app/package/data_collectors/steam_api_utility.py:425-429 | one incoming unit raises the sum by its amount |
| ItemStack.TotalUpdate | app/package/data_collectors/steam_api_utility.py:429 | changing one unit's amount changes the sum by the difference |
| ItemStack.TakeKnown | app/package/data_collectors/steam_api_utility.py:408-410 | every unit of a split stack is known to the stack it was split from |
| ItemStack.TakeThenRemove | app/package/data_collectors/steam_api_utility.py:388-436 | removing a split of k units from its stack lowers `get_amount` by k, capped by what the stack had |
| ItemStack.RemoveThenAdd | app/package/data_collectors/steam_api_utility.py:421-436 | moving known units out and back in restores the stack exactly |
| ItemStack.AddThenRemove | app/package/data_collectors/steam_api_utility.py:421-436 | adding known units and removing them again restores the stack exactly |
| ItemStack.TakeRemoveAddRestores | app/package/data_collectors/steam_api_utility.py:408-436 | splitting off k units, removing them and adding them back restores the stack |
| ItemStack.DateTagRoundTrip | app/package/data_collectors/steam_api_utility.py:357-366 | a description `[date]N[/date]...` is read as the timestamp N |
| ItemStack.Outcome | app/package/data_collectors/steam_api_utility.py:358-382 | a blank description settles nothing. Otherwise the first form found decides, in this order: a GMT text, a `[date]` tag, a parsed localized date |
| ItemStack.EndBanSkip | app/package/data_collectors/steam_api_utility.py:358-383 | a first description that settles nothing hands the scan to the rest |
| ItemStack.NoneSettlesTail | app/package/data_collectors/steam_api_utility.py:358-383 | past a first description that settles nothing, "none settles" means the same for the list and its tail |
| ItemStack.EndBanNoneIff | app/package/data_collectors/steam_api_utility.py:355-383 | `end_ban_marketable` is None exactly when no owner description settles it |
| ItemStack.EndBanGmtSource | app/package/data_collectors/steam_api_utility.py:361-362 | a GMT result is the text of some owner description that contains `GMT` |
| ItemStack.ItemIdInjective | app/package/data_collectors/steam_api_utility.py:405-406 | for numeric ids, `classid_instanceid` determines the class id and the instance id |
| ItemStack.Color | app/package/data_collectors/steam_api_utility.py:384-387 | no name colour gives `''`; otherwise the colour starts with exactly one `#` |
| ItemStack.RemoveChar | app/package/data_collectors/steam_api_utility.py:386 | `replace('#', '')` keeps every other character and drops every `#` |
| ItemStack.ColorIdempotent | app/package/data_collectors/steam_api_utility.py:384-387 | normalising a colour twice is the same as once |
| ItemStack.RemoveCharAbsent | app/package/data_collectors/steam_api_utility.py:386 | a text without `#` is left as it is |
| ItemStack.MarketUrl | app/package/data_collectors/steam_api_utility.py:391-393 | no market hash name gives None; otherwise the url is under `https://steamcommunity.com/market/listings/` |
| ItemStack.Descriptor.constructor | app/package/data_collectors/steam_api_utility.py:326-354 | the descriptor holds the given description and units |
| ItemStack.Descriptor.GetAmountItems | app/package/data_collectors/steam_api_utility.py:408-420 | returns a fresh descriptor with the same description whose units are `Take(units, k)`; the original is untouched |
| ItemStack.Descriptor.AddItems | app/package/data_collectors/steam_api_utility.py:421-429 | a null or different-kind stack changes nothing; otherwise the units become `AddUnits` of the other stack's units |
| ItemStack.Descriptor.RemoveItems | app/package/data_collectors/steam_api_utility.py:430-436 | a null or different-kind stack changes nothing; otherwise the units become `RemoveUnits` of the other stack's units |
| ItemStack.Units | app/package/data_collectors/steam_api_utility.py:348 | the unit lists of a row of descriptors, position by position |
| ItemStack.UnitsAre | app/package/data_collectors/steam_api_utility.py:348 | descriptors holding given unit lists have exactly those lists |
| ItemStack.SplitExample | app/package/data_collectors/steam_api_utility.py:408-436 | asking 7 of a 3+5 stack takes 3 and 4, and removing that split leaves 0 and 1 |
| Inventory.UnitsOf | app/package/data_collectors/steam_api_utility.py:348-350 | a description's units are its asset records, one for one, each stamped with the description's appid |
| Inventory.ToUnits | app/package/data_collectors/steam_api_utility.py:309-318 | each asset record becomes one unit |
| Inventory.MatchingMembers | app/package/data_collectors/steam_api_utility.py:284-286 | an asset is grouped under a description exactly when it is among the assets and has the description's classid and instanceid (0 when missing) |
| Inventory.MatchingAppend | app/package/data_collectors/steam_api_utility.py:284-286 | the matching assets of two runs are those of the first run, then those of the second, in order |
| Inventory.Group | app/package/data_collectors/steam_api_utility.py:277-287 | `parse_inventory` keeps the description list and gives each description with a classid its matching assets |
| Inventory.MergePrefix | app/package/data_collectors/steam_api_utility.py:269-274 | merging a page keeps the earlier descriptions, in order, at the front |
| Inventory.MergeKeys | app/package/data_collectors/steam_api_utility.py:269-274 | after the merge, a (classid, instanceid) kind is present exactly when it was present before or on the new page |
| Inventory.MergeDistinct | app/package/data_collectors/steam_api_utility.py:269-274 | the merge never adds a second description of a kind already present. This is among the non-empty records only: an empty record `{}` is falsy and is appended every time |
| Inventory.MergeKnown | app/package/data_collectors/steam_api_utility.py:269-274 | a page whose non-empty records are all of known kinds adds exactly its empty records `{}`, in order |
| Inventory.MergeIdempotent | app/package/data_collectors/steam_api_utility.py:269-274 | merging the same page a second time adds only that page's empty records `{}` again. A page with none adds nothing the second time |
| Inventory.InventoryManager.constructor | app/package/data_collectors/steam_api_utility.py:256-264 | a new manager holds the page's descriptions (grouped with their assets) and assets, and its `success` flag. Its inventory mirrors the descriptions with fresh descriptors |
| Inventory.InventoryManager.ParseInventory | app/package/data_collectors/steam_api_utility.py:277-287 | descriptions are regrouped over the current assets, assets are unchanged, and the inventory is rebuilt to mirror them |
| Inventory.InventoryManager.GroupAssets | app/package/data_collectors/steam_api_utility.py:280-286 | the loop gives every description its matching assets, as `Group` says |
| Inventory.InventoryManager.AddNextInvent | app/package/data_collectors/steam_api_utility.py:266-275 | no next page changes nothing. Otherwise the assets are extended, and the new page's descriptions of new kinds are appended, together with every `{}`. The whole is then regrouped, as `Merged` says |
| Inventory.BuildDescriptors | app/package/data_collectors/steam_api_utility.py:287 | one fresh descriptor per description, carrying its info and units |
| Inventory.Tradable | app/package/data_collectors/steam_api_utility.py:289-290 | the tradable descriptors are exactly the tradable ones of the inventory |
| Inventory.TradableAmountBound | app/package/data_collectors/steam_api_utility.py:292-294 | the tradable amount is never negative and never more than the whole inventory's amount |
| Inventory.LoadedStep | app/package/data_collectors/steam_api_utility.py:97-104 | pages i..j loaded is page i merged with pages i+1..j loaded |
| Inventory.ChainStep | app/package/data_collectors/steam_api_utility.py:97-104 | a successful page without more items, or whose next page fails, is the whole result. Otherwise the result is that page merged with the rest of the chain |
| Inventory.LoadedInFront | app/package/data_collectors/steam_api_utility.py:97-104 | a page announcing more items, in front of a loaded chain, extends it by one page |
| Inventory.ChainKeepsEarlierPages | app/package/data_collectors/steam_api_utility.py:87-107 | when pages i..j-1 succeed and announce more items, and page j fails or is missing, the load result is pages i..j-1 merged, with no page lost |
| Inventory.GroupDistinct | app/package/data_collectors/steam_api_utility.py:277-287 | grouping keeps the descriptions' kinds distinct |
| Inventory.ChainDistinct | app/package/data_collectors/steam_api_utility.py:87-107 | when each page's descriptions have distinct kinds, so does the whole loaded inventory |
| Inventory.LoadInventory | app/package/data_collectors/steam_api_utility.py:87-107 | None exactly when the first page fails; otherwise a fresh manager whose data is `Chain` of the pages |
| Inventory.GetInventoryItems | app/package/data_collectors/steam_api_utility.py:80-86 | a dead session gives nothing. An empty or own steam id reads the own inventory, and any other the partner endpoint. The result is the chain of pages, or None when the first page fails |
| MarketData.NotBugHasHashName | app/package/data_collectors/steam_api_utility.py:488-489 | a listing that is not a bug item has an asset market hash name, equal to its own hash name |
| MarketData.CommissionAmount | app/package/data_collectors/steam_api_utility.py:514-517 | an omitted or zero price stands for the listing's price. The amount after commission never exceeds the price, and for a non-negative price it is exactly price·100/115 |
| MarketData.MaxPrice | app/package/data_collectors/steam_api_utility.py:524-526 | 0 for an empty graph; otherwise a price of the graph that no price exceeds |
| MarketData.MinPrice | app/package/data_collectors/steam_api_utility.py:527-529 | 0 for an empty graph; otherwise a price of the graph that no price undercuts |
| MarketData.OrderBookBounds | app/package/data_collectors/steam_api_utility.py:551-561 | the highest buy order is a buy price no buy price exceeds; the lowest sell order is a sell price none undercuts |
| MarketData.RequestsBounded | app/package/data_collectors/steam_api_utility.py:159-176 | every request the search loader makes is one of at most 2 attempts, at `start` plus a multiple of 100. Apart from the first page, it is below `max_items_load` |
| MarketData.LoadFirstPage | app/package/data_collectors/steam_api_utility.py:162-178 | two failed attempts give `[]`; otherwise the results of the first successful attempt come first |
| MarketData.MarketListings | app/package/data_collectors/steam_api_utility.py:143-146 | a dead session gives `[]` without any request |
| MarketPage.RealItems | app/ui/pages/page_market.py:251 | the kept listings are a sub-list of the fetched ones, none of them a bug item |
| MarketPage.RealItemsMembers | app/ui/pages/page_market.py:251 | a listing is kept exactly when it was fetched, is not empty, is not a bug item and belongs to the selected app |
| MarketPage.KeepNamed | app/ui/pages/page_market.py:234-241 | the filter never adds rows |
| MarketPage.ByNameEmpty | app/ui/pages/page_market.py:231-237 | an empty filter keeps every row in its order |
| MarketPage.KeepAll | app/ui/pages/page_market.py:235-237 | with no filter text every row is appended, in order |
| MarketPage.ByNameMembers | app/ui/pages/page_market.py:231-241 | with a filter, a row is kept exactly when the lower-cased filter occurs in its lower-cased name, hash name or market hash name |
| MarketPage.KeepNamedMembers | app/ui/pages/page_market.py:239-241 | a row is kept exactly when one of its three names contains the filter |
| MarketPage.MarketCriteria | app/ui/pages/page_market.py:217-223 | two criteria, quantity then unit price, each carrying its button's state |
| MarketPage.MarketPageContent.constructor | app/ui/pages/page_market.py:74-130 | no rows, an empty filter, and the quantity button starting upward with the price button off |
| MarketPage.MarketPageContent.SortByName | app/ui/pages/page_market.py:230-241 | the shown rows become `ByName` of the loaded rows and the filter; nothing else changes |
| MarketPage.MarketPageContent.SortItems | app/ui/pages/page_market.py:209-228 | the shown rows are a permutation of the filtered rows, ordered lexicographically by the active criteria, first criterion first, as `SortAll` says |
| MarketPage.MarketPageContent.OnClickSort | app/ui/pages/page_market.py:183-202 | the clicked button moves one step in its cycle, the other is switched off, and the rows are re-sorted |
| MarketPage.MarketPageContent.OnChangeSortName | app/ui/pages/page_market.py:205-207 | a new filter text re-filters and re-sorts the loaded rows |
| MarketPage.MarketPageContent.OnSelectAppId | app/ui/pages/page_market.py:243-257 | no app id clears the shown rows. Otherwise the loaded rows become `RealItems` of the fetched listings, filtered and sorted |
| MarketPage.ShownRowsAreReal | app/ui/pages/page_market.py:243-257 | every row the page shows was fetched, is not empty, is not a bug item and belongs to the selected app |
| Sorting.Click | app/ui/pages/page_inventory.py:1597-1605 | a click always changes the clicked button's state |
| Sorting.ClickCycle | app/ui/pages/page_inventory.py:1597-1605 | the cycle is off → up → down → off, so three clicks return to the start |
| Sorting.SortButtons.constructor | app/ui/pages/page_market.py:123-126 | the buttons start in the given states |
| Sorting.SortButtons.OnClickSort | app/ui/pages/page_inventory.py:1593-1618 | the clicked button moves one step in its cycle and every other button is switched off, so at most one button is active |
| Sorting.LexTotal | app/ui/pages/page_inventory.py:1636 | comparing names is total, and antisymmetric |
| Sorting.LexTrans | app/ui/pages/page_inventory.py:1636 | comparing names is transitive |
| Sorting.KeyOrder | app/ui/pages/page_inventory.py:1635-1642 | the order on sort keys (names or numbers) is a total order |
| Sorting.OrdFacts | app/ui/pages/page_inventory.py:1647 | the order `list.sort` uses, ascending or with `reverse=True`, is total and transitive, and ranks equal keys either way |
| Sorting.Insert | app/ui/pages/page_inventory.py:1647 | inserting a row adds exactly that row |
| Sorting.Sort | app/ui/pages/page_inventory.py:1647 | sorting is a permutation |
| Sorting.InsertSorted | app/ui/pages/page_inventory.py:1647 | inserting into a sorted list keeps it sorted |
| Sorting.SortSorted | app/ui/pages/page_inventory.py:1647 | the result of one sort is ordered by its key, ascending or reversed |
| Sorting.WithKey | app/ui/pages/page_inventory.py:1647 | the rows with a given key form a sub-list |
| Sorting.WithKeyAppend | app/ui/pages/page_inventory.py:1647 | the rows with a key in two runs are those of the first, then those of the second |
| Sorting.InsertStable | app/ui/pages/page_inventory.py:1647 | inserting a row puts it after every equal-key row already there |
| Sorting.InsertFront | app/ui/pages/page_inventory.py:1647 | a row inserted at the front had no equal-key row before it |
| Sorting.InsertBehind | app/ui/pages/page_inventory.py:1647 | stability carries over when the insertion passes the first row |
| Sorting.KeepHead | app/ui/pages/page_inventory.py:1647 | keeping the head in place preserves the relative order of equal keys |
| Sorting.InsertHead | app/ui/pages/page_inventory.py:1647 | a row that does not go first leaves the head in place |
| Sorting.WithKeyHead | app/ui/pages/page_inventory.py:1647 | the rows with a key split into the head's and the tail's |
| Sorting.WithKeyOne | app/ui/pages/page_inventory.py:1647 | a single row is kept exactly when it has the key |
| Sorting.NoneWithKey | app/ui/pages/page_inventory.py:1647 | when the new row belongs before the whole sorted list, no row there has its key |
| Sorting.NoKeyNoneKept | app/ui/pages/page_inventory.py:1647 | a list with no row of a key keeps none |
| Sorting.SortStable | app/ui/pages/page_inventory.py:1647 | `list.sort` is stable: rows with equal keys keep their relative order |
| Sorting.Active | app/ui/pages/page_inventory.py:1644 | the active criteria are those whose button is on, in order |
| Sorting.SortAll | app/ui/pages/page_inventory.py:1646-1647 | applying the active criteria last to first is a permutation of the rows |
| Sorting.SortItems | app/ui/pages/page_inventory.py:1622-1647 | the loop over the reversed active criteria gives `SortAll`: a permutation ordered lexicographically by the active criteria, first criterion as the primary key |
| Sorting.SortAllLexicographic | app/ui/pages/page_inventory.py:1646-1647 | sorting by each criterion in reverse order yields the lexicographic order, first criterion first |
| Sorting.KeptInOrder | app/ui/pages/page_inventory.py:1647 | rows with equal keys under a later sort stay in the order the earlier sorts gave them |
| Sorting.PairwiseWithKey | app/ui/pages/page_inventory.py:1647 | a sub-list of a lexicographically ordered list stays ordered |
| Sorting.KeptFrom | app/ui/pages/page_inventory.py:1647 | each row with a key comes from some position of the list |
| Sorting.KeptPositions | app/ui/pages/page_inventory.py:1647 | two rows with a key keep their relative positions in the sub-list |
| Sorting.KeptAt | app/ui/pages/page_inventory.py:1647 | a row with the key appears in the sub-list |
| SellPricing.FirstDigit | app/ui/pages/page_inventory.py:38 | the regex search starts at the first digit from a position, or finds none when no digit follows |
| SellPricing.Pow10 | app/ui/pages/page_inventory.py:41 | a power of ten is at least one |
| SellPricing.FractionEnd | app/ui/pages/page_inventory.py:38 | `\.\d{0,3}` takes at most three digits after the point, all of them digits |
| SellPricing.Decimal | app/ui/pages/page_inventory.py:41 | the value `float` gives a whole part and its fraction is at least the whole part |
| SellPricing.ParceValueShape | app/ui/pages/page_inventory.py:36-45 | `parce_value` gives `''` exactly when the text has no digit, and otherwise a non-negative number |
| SellPricing.ParceValueCommaPoint | app/ui/pages/page_inventory.py:37 | a decimal comma reads the same as a decimal point |
| SellPricing.ParseDecimal | app/ui/pages/page_inventory.py:36-45 | digits, a point and up to three digits read as that decimal number |
| SellPricing.DecimalHasNoComma | app/ui/pages/page_inventory.py:37 | a decimal written with a point holds no comma, so the replace leaves it alone |
| SellPricing.DecimalRuns | app/ui/pages/page_inventory.py:38-41 | the match at the start of such a decimal is the whole decimal |
| SellPricing.NumberAtPoint | app/ui/pages/page_inventory.py:38-41 | a digit run, a point and a fraction run read as the decimal they spell |
| SellPricing.WholeRun | app/ui/pages/page_inventory.py:38 | `\d+` stops at the point after the whole part |
| SellPricing.FractionRun | app/ui/pages/page_inventory.py:38 | `\d{0,3}` takes the whole fraction of up to three digits |
| SellPricing.ParseDisplayedPrice | app/ui/pages/page_inventory.py:1009-1012 | a price the dialog shows with two decimals reads back as that price |
| SellPricing.TwoDigits | app/ui/pages/page_inventory.py:1042 | two decimal digits spell their value |
| SellPricing.CentsDecimal | app/ui/pages/page_inventory.py:1042 | a whole number of cents split into units and two decimals is that amount |
| SellPricing.NoCommaUnchanged | app/ui/pages/page_inventory.py:37 | replacing commas changes nothing in a text without one |
| SellPricing.ParseWholeNumber | app/ui/pages/page_inventory.py:36-45 | a whole number written in digits reads back as itself |
| SellPricing.GrossFloors | app/ui/pages/page_inventory.py:407-423 | below one cent the buyer's price is 0; from one cent up it is at least 3 cents with at least 2 cents of fee: net plus 15% from 2/15 of a unit up, net plus 2 cents below |
| SellPricing.NetFloors | app/ui/pages/page_inventory.py:424-440 | below three cents the seller's share is 0; from three cents up it is at least one cent with at least 2 cents of fee: gross over 1.15 from 2.3/15 up, gross minus 2 cents below |
| SellPricing.NetOfGross | app/ui/pages/page_inventory.py:407-440 | from one cent up, converting a net price to gross and back gives the net price |
| SellPricing.GrossOfNet | app/ui/pages/page_inventory.py:407-440 | from three cents up, converting a gross price to net and back gives the gross price |
| SellPricing.Trunc | app/ui/pages/page_inventory.py:239 | `int()` cuts toward zero: the whole part below a non-negative number, above a negative one |
| SellPricing.CentsOfRound2 | app/ui/pages/page_inventory.py:238-239 | `int(round(x, 2) * 100)` is the number of cents `x` rounds to |
| SellPricing.Round2Zero | app/ui/pages/page_inventory.py:443-450 | a price rounds to 0 exactly when it is under half a cent in size, so `start_sell` stops on it |
| SellPricing.SetPriceFloors | app/ui/pages/page_inventory.py:320-362 | unless both prices are cleared, the stored gross price is at least the minimum price, above the don't-sell line and at least the best bid when auto-buy applies |
| SellPricing.SetPriceConsistent | app/ui/pages/page_inventory.py:320-362 | unless both prices are cleared, the stored net price is what the seller receives for the stored gross price |
| SellPricing.DialogFromNet | app/ui/pages/page_inventory.py:1029-1047 | the dialog's pair keeps at least 2 cents of fee and a net of at least one cent |
| SellPricing.DialogFromGross | app/ui/pages/page_inventory.py:1048-1065 | the dialog's pair keeps at least 2 cents of fee and a net of at least one cent |
| SellPricing.DialogAgrees | app/ui/pages/page_inventory.py:1029-1065 | within Steam's price range the dialog's conversions agree with the page's |
| SellPricing.DialogDiffersBelowMinGross | app/ui/pages/page_inventory.py:1048-1065 | between one and three cents the dialog raises the gross price to 3 cents where the page gives a net of 0 |
| SellFlow.Confirm | app/ui/pages/page_inventory.py:251-260 | every offered unit is accounted for, and the answers are used in order |
| SellFlow.ConfirmShape | app/ui/pages/page_inventory.py:251-260 | each unit after the sell calls is the offered unit, or a positive offered unit whose sale failed, set to 0 |
| SellFlow.ConfirmBounds | app/ui/pages/page_inventory.py:251-263 | what the sell calls confirm is never negative and never more than the split-off copy held, unit by unit |
| SellFlow.ConfirmAllSold | app/ui/pages/page_inventory.py:251-260 | when every sale succeeds, the whole copy is confirmed |
| SellFlow.ConfirmNoneSold | app/ui/pages/page_inventory.py:251-260 | when every sale fails, every positive unit of the copy is set to 0 |
| SellFlow.SellStepConserves | app/ui/pages/page_inventory.py:247-265 | one row lowers the stack by exactly what sold and the pending count by the same; that is never negative, never more than was pending, and never more than the stack held |
| SellFlow.ConfirmKnown | app/ui/pages/page_inventory.py:247-265 | the confirmed units are units of the stack being sold |
| SellFlow.SellStepIdle | app/ui/pages/page_inventory.py:247-265 | with nothing pending a row offers nothing and changes nothing |
| SellFlow.TakeZeroAt | app/package/data_collectors/steam_api_utility.py:408-420 | with nothing pending `get_amount_items` sets every unit of the copy to 0 |
| SellFlow.ConfirmIdle | app/ui/pages/page_inventory.py:251-252 | units of 0 are skipped without a sell call |
| SellFlow.RemoveNothing | app/package/data_collectors/steam_api_utility.py:430-436 | removing units of 0 leaves the stack as it was |
| SellFlow.SellRows | app/ui/pages/page_inventory.py:242-266 | a run over the rows gives one stack per row |
| SellFlow.SellRowsSkips | app/ui/pages/page_inventory.py:242-245 | a row that is not marketable (or, on the sell-all row, holds nothing) comes out of the run unchanged |
| SellFlow.SellRowsConserve | app/ui/pages/page_inventory.py:242-266 | over all rows, the stacks lose exactly what sold and the pending count drops by the same, never below 0 sold nor above the count asked for |
| SellFlow.SellRowsIdle | app/ui/pages/page_inventory.py:242-266 | with nothing pending a run changes no row |
| SellFlow.Flags | app/package/data_collectors/steam_api_utility.py:401-402 | one marketable flag per row, taken from the row's descriptor |
| SellFlow.OfferUnits | app/ui/pages/page_inventory.py:251-261 | the inner loop leaves the copy as `Confirm` describes and uses the answers it says |
| SellFlow.OfferNext | app/ui/pages/page_inventory.py:251-261 | one pass of the inner loop keeps the loop invariant |
| SellFlow.ConfirmCons | app/ui/pages/page_inventory.py:251-260 | the first unit of the copy is confirmed, skipped or zeroed, then the rest follows |
| SellFlow.GlueGlue | app/ui/pages/page_inventory.py:251-260 | gluing confirmed prefixes is associative |
| SellFlow.SellFromStack | app/ui/pages/page_inventory.py:247-265 | one row of the loop changes the descriptor's units and the pending count as `SellStep` says |
| SellFlow.SellRow | app/ui/pages/page_inventory.py:242-266 | one row of the loop changes only that row's units |
| SellFlow.SellRowsLoop | app/ui/pages/page_inventory.py:242-266 | the row loop leaves the descriptors' units and the pending count as `SellRows` describes |
| SellFlow.SellNext | app/ui/pages/page_inventory.py:242-266 | one pass of the row loop keeps the loop invariant |
| SellFlow.SellRowsCons | app/ui/pages/page_inventory.py:242-266 | a run is its first row followed by the run over the rest |
| SellFlow.Splice | app/ui/pages/page_inventory.py:242-266 | replacing the first row after the done rows extends the done rows by one |
| SellFlow.AfterAfter | app/ui/pages/page_inventory.py:242-266 | prefixing done rows is associative |
| SellFlow.ClampCount | app/ui/pages/page_inventory.py:310-315 | the count is within the marketable total: missing or non-positive gives 0, too large gives the total, anything between is kept |
| SellFlow.UserPricesConsistent | app/ui/pages/page_inventory.py:289-309 | a typed net price fixes the gross price the net side converts back to, and a typed gross price fixes a net price that converts back to it |
| SellFlow.SellAllItemContent.constructor | app/ui/pages/page_inventory.py:98-115 | the row starts empty, with percent 1, auto-buy on, minimum 0.03, no don't-sell line and no typed prices |
| SellFlow.SellAllItemContent.GetPriceSell | app/ui/pages/page_inventory.py:443-446 | 0 without a count; the typed gross price rounded to cents when there is one; 0 when no computed price is set |
| SellFlow.SellAllItemContent.GetPriceGet | app/ui/pages/page_inventory.py:447-450 | the same for the net price |
| SellFlow.SellAllItemContent.GetCountSell | app/ui/pages/page_inventory.py:451-454 | the count is reported exactly when it and both rounded prices are non-zero |
| SellFlow.SellAllItemContent.ZeroUserPriceBlocksSale | app/ui/pages/page_inventory.py:228-240 | a typed price of 0 keeps `start_sell` from selling anything |
| SellFlow.SellAllItemContent.InitItems | app/ui/pages/page_inventory.py:194-203 | the rows are taken, and the count becomes the marketable total when none was set |
| SellFlow.SellAllItemContent.SetSellAmount | app/ui/pages/page_inventory.py:310-319 | the count is clamped into the marketable total; nothing else changes |
| SellFlow.SellAllItemContent.SetPrice | app/ui/pages/page_inventory.py:320-362 | the stored prices become those `set_price` computes from the settings; nothing else changes |
| SellFlow.SellAllItemContent.SetUserPrice | app/ui/pages/page_inventory.py:289-309 | the typed prices become the pair `set_user_price` computes |
| SellFlow.SellAllItemContent.OnChangeSellPrice | app/ui/pages/page_inventory.py:270-273 | the gross-price text is read by `parce_value`, no number meaning 0, and handed to `set_user_price` |
| SellFlow.SellAllItemContent.OnChangeGetPrice | app/ui/pages/page_inventory.py:274-277 | the net-price text is read the same way for the net side |
| SellFlow.SellAllItemContent.OnChangeCount | app/ui/pages/page_inventory.py:278-281 | the quantity text is read as a number and clamped into the marketable total |
| SellFlow.SellAllItemContent.InitHistogram | app/ui/pages/page_inventory.py:205-226 | a missing or failed histogram gives `False` and changes nothing; a good one records the lowest sell and highest buy orders and prices the row at the lowest sell order |
| SellFlow.SellAllItemContent.SetPercent | app/ui/pages/page_inventory.py:375-379 | a missing or 0 percent is ignored; otherwise the percent is stored and the prices follow the lowest sell order when there is one |
| SellFlow.SellAllItemContent.SetPriceToAutoBuy | app/ui/pages/page_inventory.py:380-387 | with a histogram, the percent goes back to 1 and the row is priced at the highest buy order, lifted to the minimum price on request |
| SellFlow.SellAllItemContent.SetIsMinimumAutoBuy | app/ui/pages/page_inventory.py:388-394 | a missing flag means on; switching on reprices at the highest buy order a row priced below it, unless the user typed a price |
| SellFlow.SellAllItemContent.SetMinimumPrice | app/ui/pages/page_inventory.py:395-400 | a missing minimum means 0.03; a row priced below the minimum is repriced at it, unless the user typed a price |
| SellFlow.SellAllItemContent.SetPriceDontSell | app/ui/pages/page_inventory.py:401-405 | a missing line means 0; a price under the line clears both prices to 0 |
| SellFlow.SellAllItemContent.StartSell | app/ui/pages/page_inventory.py:228-268 | when a guard fails nothing changes; otherwise every marketable row holding something is sold as `SellRows` describes at the net price in whole cents, and the count left over is stored, clamped |
| SellFlow.StartSellAccounting | app/ui/pages/page_inventory.py:242-268 | after a sell run the count left is between 0 and the count asked for, the stacks lost exactly what sold, and the stored count never exceeds the count asked for |
| SellFlow.FractionBounds | app/ui/pages/page_inventory.py:1073-1074 | a fraction between 0 and 1 of the total, cut toward zero, stays within the total |
| SellFlow.DialogCount | app/ui/pages/page_inventory.py:1066-1082 | nothing is set exactly when neither a count nor a non-zero percent is given; the result is within the total; a percent gives that share of the total cut toward zero; a count in range is kept |
| SellFlow.SellItemDialog.constructor | app/ui/pages/page_inventory.py:702-709 | the dialog starts open with a count of 1 and no prices |
| SellFlow.SellItemDialog.SetPriceGet | app/ui/pages/page_inventory.py:1029-1047 | a missing net price changes nothing; otherwise both prices become the dialog's pair for that net price |
| SellFlow.SellItemDialog.SetPriceSell | app/ui/pages/page_inventory.py:1048-1065 | a missing gross price changes nothing; otherwise both prices become the dialog's pair for that gross price |
| SellFlow.SellItemDialog.SetSellCount | app/ui/pages/page_inventory.py:1066-1087 | the count becomes the dialog's clamped count, or stays when nothing is given |
| SellFlow.SellItemDialog.OnClickStartSell | app/ui/pages/page_inventory.py:913-955 | when a guard fails nothing changes; otherwise, while the dialog is open, marketable rows are sold as `SellRows` describes at the net price in whole cents, and the count left over is stored |
| SellFlow.DialogMatchesSellAll | app/ui/pages/page_inventory.py:913-955 | on rows that all hold something the dialog's run and the sell-all row's run agree |
| SellFlow.MarketDescriptionShowsPrices | app/ui/pages/page_inventory.py:1332-1355 | a row shows its prices exactly when it is not restricted, is marketable and has a listing or a histogram; it shows the restriction date exactly when there is one |
| Trade.FindKind | app/ui/pages/page_trade.py:119 | the first entry with the item's classid and instanceid, or none when no entry has them |
| Trade.OneEntryDistinct | app/ui/pages/page_trade.py:118-150 | entries of different kinds are different objects |
| Trade.SideTotalAppend | app/ui/pages/page_trade.py:130 | a side's total over two runs of entries is the sum of their totals |
| Trade.SideTotalUpdate | app/ui/pages/page_trade.py:130 | changing one entry changes the side's total by that entry's difference |
| Trade.AddedToConserves | app/ui/pages/page_trade.py:118-131 | adding an item to a side raises the side's total by exactly the item's amount |
| Trade.AddToSide | app/ui/pages/page_trade.py:118-128 | an item of a kind already present is merged into that entry with `add_items`, otherwise appended; the side keeps one entry per kind, the other side's units stay as they were and the sides stay apart |
| Trade.TradeItemsContent.constructor | app/ui/pages/page_trade.py:27-29 | an empty basket with unknown owners and no remove callback |
| Trade.TradeItemsContent.SetSides | app/ui/pages/page_trade.py:126 | puts both lists in place, owners and callback unchanged |
| Trade.TradeItemsContent.AddSelfItem | app/ui/pages/page_trade.py:118-133 | the item joins the own side as `AddToSide` says; the partner's side is untouched |
| Trade.TradeItemsContent.AddPartnerItem | app/ui/pages/page_trade.py:135-150 | the item joins the partner's side; the own side is untouched |
| Trade.TradeItemsContent.AddItem | app/ui/pages/page_trade.py:106-116 | an item for neither owner, or holding nothing, changes nothing; otherwise it joins its owner's side, the own side first when both ids are equal |
| Trade.TradeItemsContent.RemoveItem | app/ui/pages/page_trade.py:188-209 | an unknown owner changes nothing; otherwise the entry of the item's kind leaves that owner's list, the other list stays, and the remove callback, when set, is called once with the owner and the item |
| Trade.TradeItemsContent.CreateTradeData | app/ui/pages/page_trade.py:238-284 | the payload of both sides' positive units, or none when neither side offers anything |
| Trade.TradeItemsContent.CreateCommentTrade | app/ui/pages/page_trade.py:211-236 | the comment holds both ids and both per-app summaries in the fixed layout |
| Trade.TradeItemsContent.ClearItems | app/ui/pages/page_trade.py:286-294 | both lists are emptied, so the next payload is none; the owners and the callback stay |
| Trade.Without | app/ui/pages/page_trade.py:195-197 | removing an entry never lengthens the list |
| Trade.WithoutKeepsOneEntry | app/ui/pages/page_trade.py:195-197 | removing the entry of a kind keeps one entry per kind and keeps every entry of another kind, and only those |
| Trade.Records | app/ui/pages/page_trade.py:242-251 | one record per unit with a positive amount, its amount written in decimal |
| Trade.SideAssets | app/ui/pages/page_trade.py:239-252 | every record's amount is a decimal number |
| Trade.CollectAssets | app/ui/pages/page_trade.py:239-252 | the loop over a side's list gives the records `SideAssets` describes |
| Trade.ParsedSumAppend | app/ui/pages/page_trade.py:242-251 | the amounts of two runs of records add up |
| Trade.RecordsCarry | app/ui/pages/page_trade.py:242-251 | the records of a stack carry exactly its positive amounts, each amount positive, and there are none exactly when nothing is positive |
| Trade.SideAssetsSum | app/ui/pages/page_trade.py:239-252 | the records of a side carry exactly the amount it offers |
| Trade.SideAssetsEmpty | app/ui/pages/page_trade.py:239-252 | a side has no records exactly when none of its stacks holds anything |
| Trade.TradeDataNone | app/ui/pages/page_trade.py:238-284 | the payload is none exactly when no stack on either side holds anything, and otherwise each side's records carry exactly what that side offers |
| Trade.FindApp | app/ui/pages/page_trade.py:219 | the position of an app in the summary, or none when it is absent |
| Trade.Entries | app/ui/pages/page_trade.py:214-218 | one (app id, amount) pair per entry, in order |
| Trade.SumCountsUpdate | app/ui/pages/page_trade.py:220 | changing one app's count changes the total by the difference |
| Trade.SumCountsAppend | app/ui/pages/page_trade.py:220 | a new app adds its count to the total |
| Trade.AddCountFacts | app/ui/pages/page_trade.py:219 | adding an amount to an app keeps one line per app, raises that app's count and the total by the amount, and leaves other apps alone |
| Trade.FindAppAppend | app/ui/pages/page_trade.py:219 | a new app at the end adds its count to its own lookup only |
| Trade.FindAppSnoc | app/ui/pages/page_trade.py:219 | a lookup after appending finds the old position first |
| Trade.FindAppFirst | app/ui/pages/page_trade.py:219 | the lookup finds the first line of an app |
| Trade.AppCountsSums | app/ui/pages/page_trade.py:212-220 | the per-app summary has one line per app, each app's count is the sum of its positive amounts, and the total is the sum of all positive amounts |
| Trade.AppCountsEmpty | app/ui/pages/page_trade.py:212-221 | the summary is empty exactly when no entry holds anything |
| Trade.AppLines | app/ui/pages/page_trade.py:223 | one line per app |
| Trade.FormatNoItems | app/ui/pages/page_trade.py:212-224 | `format_items` answers "No items." exactly when no entry holds anything |
| Trade.FormatItems | app/ui/pages/page_trade.py:212-224 | the dictionary loop gives the summary text of the per-app counts |
| Trade.Comment | app/ui/pages/page_trade.py:229-235 | the comment opens with the own side's heading |
| Trade.PartnerFrom | app/ui/pages/page_trade.py:805 | when no match is found, no `partner=` followed by a digit occurs anywhere |
| Trade.PartnerFromSkip | app/ui/pages/page_trade.py:805 | positions without a match can be skipped |
| Trade.LineEnd | app/ui/pages/page_trade.py:808 | the match of `.*` runs to the end of the line |
| Trade.TradePageContent.constructor | app/ui/pages/page_trade.py:665-668 | an empty trade URL and no partner |
| Trade.TradePageContent.OnUpdateTradeUrl | app/ui/pages/page_trade.py:801-818 | an empty value changes nothing; otherwise the URL is stored, the partner's steam id is the number after `partner=` plus the 64-bit base or else the id looked up from the URL, the token is what follows `token=`, and the partner is refreshed when either is known |
| Trade.NoEqualsNoMatch | app/ui/pages/page_trade.py:805-810 | a text without `=` holds neither `partner=` nor `token=` |
| Trade.FirstOccurrence | app/ui/pages/page_trade.py:808 | the search finds the first occurrence |
| Trade.PartnerOfUrl | app/ui/pages/page_trade.py:805-807 | the account number written after `partner=` is read back |
| Trade.NoPartnerInPrefix | app/ui/pages/page_trade.py:805 | no `partner=` starts inside a prefix without `=` |
| Trade.TokenOfUrl | app/ui/pages/page_trade.py:808-810 | the token written after the first `token=` is read back |
| Trade.LineEndOfTail | app/ui/pages/page_trade.py:808 | a tail without a newline runs to the end |
| Trade.ReplaceToken | app/ui/pages/page_trade.py:810 | stripping `token=` from the match leaves the token |
| Trade.NoTokenBefore | app/ui/pages/page_trade.py:808 | no `token=` starts before the token of a trade URL |
| Trade.TradeUrlRoundTrip | app/ui/pages/page_trade.py:801-810 | a trade URL built from an account number and a token gives back both |
| TradeAllocation.RowRequest | app/ui/pages/page_trade.py:367-371 | the single-row add asks for the typed count when it is positive, and for 1 otherwise |
| TradeAllocation.AddFromRow | app/ui/pages/page_trade.py:366-381 | the row hands over a fresh copy of the kind holding `get_amount_items` of the request, keeps the rest, and its amount drops by the request or by all it had, whichever is less |
| TradeAllocation.Spread | app/ui/pages/page_trade.py:565-575 | after `p` full passes and `b` rows of the next, each row holds one unit per pass it took part in, capped at its own amount |
| TradeAllocation.Equilibrium | app/ui/pages/page_trade.py:563-575 | when the rows hold more than the request, the round-robin gives each row at most its amount, the shares sum to the request, and they are a whole number of passes plus part of one |
| TradeAllocation.Pass | app/ui/pages/page_trade.py:566-575 | one pass of the `for` loop gives one more unit to each row below its amount until nothing remains |
| TradeAllocation.SpreadNext | app/ui/pages/page_trade.py:573-575 | the next row of a pass gets one more unit unless it is full |
| TradeAllocation.SpreadWrap | app/ui/pages/page_trade.py:565-566 | a pass that reaches the last row starts the next pass |
| TradeAllocation.SumUpdate | app/ui/pages/page_trade.py:574-575 | changing one share changes the sum by the difference |
| TradeAllocation.SumAtLeast | app/ui/pages/page_trade.py:563 | one row's amount is at most the total |
| TradeAllocation.SumNonNegative | app/ui/pages/page_trade.py:563 | the total of the amounts is never negative |
| TradeAllocation.SumZeros | app/ui/pages/page_trade.py:562 | the shares start with a sum of 0 |
| TradeAllocation.SpreadSumZero | app/ui/pages/page_trade.py:562 | before any pass nothing is handed out |
| TradeAllocation.SpreadBelow | app/ui/pages/page_trade.py:565 | while some row is not yet full, `p` passes have handed out at least `p` units, so the `while` loop ends |
| TradeAllocation.SpreadFull | app/ui/pages/page_trade.py:573 | once `p` reaches every row's amount, the passes have handed out everything |
| TradeAllocation.SpreadBalanced | app/ui/pages/page_trade.py:565-575 | the round-robin is fair: a row below its amount holds at most one unit less than any other row |
| TradeAllocation.SpreadZeroTail | app/ui/pages/page_trade.py:565-575 | among rows that all hold something, a row with no share is followed only by rows with no share |
| TradeAllocation.ReadyRows | app/ui/pages/page_trade.py:559 | the rows that are checked, tradable and not empty, in row order |
| TradeAllocation.ReadyRowsMembers | app/ui/pages/page_trade.py:559 | a row takes part exactly when it is one of the rows and is ready |
| TradeAllocation.ReadyRowsDistinct | app/ui/pages/page_trade.py:559 | different rows stay different after filtering |
| TradeAllocation.Amounts | app/ui/pages/page_trade.py:561 | the amount of each ready row |
| TradeAllocation.Request | app/ui/pages/page_trade.py:582-587 | a row asks for its share when it has one, else for the whole request; a positive per-item count caps it; a positive request always asks for something |
| TradeAllocation.Run | app/ui/pages/page_trade.py:577-597 | the take loop gives one stack per row and hands over at most one copy per row; with nothing requested it changes nothing |
| TradeAllocation.Takes | app/ui/pages/page_trade.py:577-597 | the same for the program's own row step |
| TradeAllocation.RowTakeSteps | app/package/data_collectors/steam_api_utility.py:408-436 | `get_amount_items` hands over the count asked for or the whole positive amount when that is less, and what `remove_items` leaves plus what was handed over add up to the stack |
| TradeAllocation.SumAmountsCons | app/ui/pages/page_trade.py:593 | the amounts handed over add up row by row |
| TradeAllocation.RunCons | app/ui/pages/page_trade.py:577-597 | a run is its first row's step followed by the run over the other rows |
| TradeAllocation.RunNeed | app/ui/pages/page_trade.py:593 | the request left is the request less everything handed over |
| TradeAllocation.RunHead | app/ui/pages/page_trade.py:577-597 | the first row of a run is the first row's step |
| TradeAllocation.RunShift | app/ui/pages/page_trade.py:577-597 | a later row of a run is the row of the run over the other rows |
| TradeAllocation.RunKeepsRest | app/ui/pages/page_trade.py:580 | rows after the loop stopped are untouched |
| TradeAllocation.RunConserves | app/ui/pages/page_trade.py:589-590 | each visited row keeps exactly what it did not hand over |
| TradeAllocation.RunCapped | app/ui/pages/page_trade.py:586-587 | a positive per-item count caps what each row hands over |
| TradeAllocation.RunShares | app/ui/pages/page_trade.py:582-593 | with shares that sum to the request and fit each row, and no per-item cap, each visited row hands over exactly its share and the request is met |
| TradeAllocation.EquilibriumMeetsRequest | app/ui/pages/page_trade.py:563-593 | with the equilibrium shares and no per-item cap, each visited row hands over exactly its share and the request is met |
| TradeAllocation.TakeFromRow | app/ui/pages/page_trade.py:589-593 | one row hands over a fresh copy of what it was asked for, keeps the rest, and the request drops by what it handed over |
| TradeAllocation.TakeLoop | app/ui/pages/page_trade.py:577-597 | the take loop leaves the rows, the copies handed over and the request left as `Takes` describes |
| TradeAllocation.TakeNext | app/ui/pages/page_trade.py:577-597 | one turn of the take loop keeps the loop invariant |
| TradeAllocation.RunAt | app/ui/pages/page_trade.py:577-597 | the run from row `i` is row `i`'s step followed by the run from row `i + 1` |
| TradeAllocation.LoopStep | app/ui/pages/page_trade.py:577-597 | the loop invariant carries over one row |
| TradeAllocation.AfterAfter | app/ui/pages/page_trade.py:577-597 | prefixing visited rows is associative |
| TradeAllocation.Splice | app/ui/pages/page_trade.py:577-597 | replacing the row after the visited rows extends them by one |
| TradeAllocation.AddFromInventory | app/ui/pages/page_trade.py:546-603 | a request of 0 or less changes nothing; otherwise the ready rows get equilibrium shares when that option is on and they hold more than the request, the take loop runs as `Takes` describes, rows that are not ready are untouched, and the field shows what is left of the request; with equilibrium and no per-item cap the request is met exactly, share by share |
| TradeAllocation.ShareAndTake | app/ui/pages/page_trade.py:561-597 | the shares are the round-robin when it applies and 0 otherwise, the take loop runs as `Takes` describes, and the request left is the request less everything handed over |
| AppSelector.MatchAt | app/ui/widgets/widget_app_selector.py:287 | a match of `app/(\d+)/` at a position captures a non-empty run of digits |
| AppSelector.LastMatch | app/ui/widgets/widget_app_selector.py:287-288 | the last capture before a position, when there is one, is a run of digits |
| AppSelector.ExtractAppId | app/ui/widgets/widget_app_selector.py:286-298 | the id read from the input is `''` or all digits |
| AppSelector.LastMatchSkip | app/ui/widgets/widget_app_selector.py:287-288 | positions without an `a` cannot start a match and can be skipped |
| AppSelector.DigitsAreTheId | app/ui/widgets/widget_app_selector.py:288-298 | an input of digits alone is its own id |
| AppSelector.UrlIdIsTheId | app/ui/widgets/widget_app_selector.py:287-298 | in an input that ends with `app/<digits>/`, those digits are the id |
| AppSelector.StoreUrlIsTheId | app/ui/widgets/widget_app_selector.py:287-298 | pasting an app's store page address gives back the app's id |
| AppSelector.Selection | app/ui/widgets/widget_app_selector.py:175-181 | the custom row reports the id read from the input; any other radio value is reported as it is |
| AppSelector.SelectListed | app/ui/widgets/widget_app_selector.py:182-197 | selecting a listed app (by a click, or when it is not the current one) makes it the selection |
| AppSelector.SelectUnlisted | app/ui/widgets/widget_app_selector.py:182-197 | selecting an unlisted numeric id selects the custom row with that id in its input |
| AppSelector.SelectTwiceDeselects | app/ui/widgets/widget_app_selector.py:182-197 | selecting a listed app a second time without a click clears the selection |
| AppSelector.ArgText | app/ui/widgets/widget_app_selector.py:183-184 | a string argument is kept; `None`, 0 and `False` become `''` |
| AppSelector.Reverse | app/ui/widgets/widget_app_selector.py:152-154 | the ancestors collected child first, in reverse: root first |
| AppSelector.ConfigNameOf | app/ui/widgets/widget_app_selector.py:147-157 | a name exists exactly when the widget is on a page and has ancestors, and it is longer than the widget's class name |
| AppSelector.ClassNameHasNoSeparator | app/ui/widgets/widget_app_selector.py:157 | the widget's class name holds no `_` |
| AppSelector.NoSeparatorInParts | app/ui/widgets/widget_app_selector.py:157 | with ancestor names free of `_`, no part of the name holds one |
| AppSelector.ConfigNameParts | app/ui/widgets/widget_app_selector.py:147-157 | splitting the name at `_` gives back the ancestor class names, root first, then the widget's class name |
| AppSelector.AppIdSelector.constructor | app/ui/widgets/widget_app_selector.py:31-38 | no selection, no rows, no custom app, and the custom row's controls hidden |
| AppSelector.AppIdSelector.SetSelectGame | app/ui/widgets/widget_app_selector.py:182-198 | the radio value and the input become what `set_select_game` decides from the listed apps; nothing else changes |
| AppSelector.AppIdSelector.SelectCustom | app/ui/widgets/widget_app_selector.py:284 | the custom row is selected and the input stays |
| AppSelector.AppIdSelector.OnChangeInput | app/ui/widgets/widget_app_selector.py:283-298 | returns the id read from the input, selects the custom row on request, and shows the load button or the custom app's logo, name and save button as the input matches the loaded custom app |
| AppSelector.AppIdSelector.ShowControls | app/ui/widgets/widget_app_selector.py:293-296 | sets the visibility of the custom row's controls; nothing else changes |
| AppSelector.AppIdSelector.GetSelectGame | app/ui/widgets/widget_app_selector.py:175-181 | returns `Selection` of the current radio value and input, refreshing the custom row's controls when it is selected |
| AppSelector.AppIdSelector.ConfigName | app/ui/widgets/widget_app_selector.py:147-157 | the name `ConfigNameOf` describes, from the ancestor loop |
| AppSelector.AppIdSelector.GetConfigValue | app/ui/widgets/widget_app_selector.py:158-165 | without configuration or a name, `None` and no change; otherwise the property is declared as a string defaulting to `''` and its stored value is read |
| AppSelector.AppIdSelector.SetConfigValue | app/ui/widgets/widget_app_selector.py:166-173 | without configuration or a name, nothing changes; otherwise the property is declared as a string and the value is written to the store |
| AppSelector.AppIdSelector.RefreshRows | app/ui/widgets/widget_app_selector.py:242-258 | the rows become exactly the real apps of the list, keyed by id, and the column lists their ids in increasing order |
| AppSelector.AppIdSelector.RestoreSelection | app/ui/widgets/widget_app_selector.py:259-261 | with configuration on, the selection is set from the stored value as `set_select_game` decides; otherwise nothing changes |
| AppSelector.AppIdSelector.UpdateAppIds | app/ui/widgets/widget_app_selector.py:239-262 | the rows become exactly the real apps of the stored list, ordered by id after the custom row, and the stored selection is restored when configuration is on |
| AppSelector.Rows | app/ui/widgets/widget_app_selector.py:242-246 | every row's key is the printed id of its non-zero app id |
| AppSelector.IdTextStart | app/ui/widgets/widget_app_selector.py:243 | a printed id is non-empty and starts with `-` or a digit |
| AppSelector.NotCustom | app/ui/widgets/widget_app_selector.py:189-192 | no printed id is `custom` |
| AppSelector.ZeroText | app/ui/widgets/widget_app_selector.py:243 | only 0 prints as `0` |
| AppSelector.RowsListed | app/ui/widgets/widget_app_selector.py:242-246 | a key has a row exactly when some real app of the list has that id |
| AppSelector.MergeRows | app/ui/widgets/widget_app_selector.py:242-246 | `dict.update` adds the list's rows to the existing ones |
| AppSelector.PruneUnlisted | app/ui/widgets/widget_app_selector.py:247-249 | the loop drops exactly the rows whose id is not in the list, keeping the others unchanged |
| AppSelector.UpdatedRows | app/ui/widgets/widget_app_selector.py:242-249 | adding the new rows and dropping unlisted ones leaves exactly the rows of the list |
| AppSelector.IncreasingAppend | app/ui/widgets/widget_app_selector.py:251-258 | appending a larger id keeps the column increasing |
| AppSelector.Least | app/ui/widgets/widget_app_selector.py:251-258 | a non-empty set of ids has a least element |
| AppSelector.SortedValues | app/ui/widgets/widget_app_selector.py:251-258 | the column lists the row ids in increasing order, each once |
| AppSelector.SaveThenRestore | app/ui/widgets/widget_app_selector.py:158-173 | a value written through `set_config_value` is read back by `get_config_value` and selects that same id |
| InventoryPage.HistogramPrice | app/ui/pages/page_inventory.py:1372-1377 | 0 without an order book; otherwise the highest buy order or the lowest sell order, as asked |
| InventoryPage.ListenPriceTotal | app/ui/pages/page_inventory.py:1358-1370 | the price of the whole stack is the price of one unit times the stack's amount |
| InventoryPage.ListenPriceFallback | app/ui/pages/page_inventory.py:1358-1370 | without a visible listing price, the price of one unit falls back to the lowest sell order in cents, or 0 without an order book |
| InventoryPage.InventoryCriteria | app/ui/pages/page_inventory.py:1635-1642 | the six criteria (name, amount, unit price, stack price, lowest sell order, highest buy order) carry the six buttons' states in order |
| InventoryPage.InventoryPageContent.constructor | app/ui/pages/page_inventory.py:1425-1457 | the rows are shown as given and only the amount button is on, pointing up |
| InventoryPage.InventoryPageContent.SortItems | app/ui/pages/page_inventory.py:1622-1647 | the rows become a permutation of themselves ordered lexicographically by the active criteria, the first active button as the primary key |
| InventoryPage.InventoryPageContent.OnClickSort | app/ui/pages/page_inventory.py:1593-1619 | the clicked button moves one step in its cycle, every other button is switched off, and the rows are sorted by the one remaining criterion |
| InventoryPage.OneActiveCriterion | app/ui/pages/page_inventory.py:1644 | with one button on, only its criterion is active |
| InventoryPage.NoneActive | app/ui/pages/page_inventory.py:1644 | with every button off, no criterion is active and the rows keep their order |
| InventoryPage.ActiveAppend | app/ui/pages/page_inventory.py:1644 | the active criteria of two runs of criteria are those of the first, then those of the second |
| Text.Lower | app/core/manager_class/account_class.py:49 | `str.lower` keeps the length and lowers each character (ASCII letters only) |
| Text.ReplaceChar | app/ui/pages/page_inventory.py:37 | `str.replace` of one character replaces exactly its occurrences and keeps every other character |
| Text.IndexFrom | app/ui/pages/page_trade.py:808 | the first occurrence of a pattern at or after a position, or none when there is no occurrence |
| Text.IndexOfAfterPrefix | app/ui/pages/page_trade.py:808 | a pattern right after a prefix that does not contain it is found there |
| Text.NotContains | app/ui/pages/page_trade.py:808 | a text that does not contain a pattern gives no position |
| Text.Split | app/package/steam_session/manager_session.py:124 | `str.split` gives at least one part |
| Text.SplitAfterPrefix | app/package/steam_session/manager_session.py:124 | a prefix without the separator becomes the first part |
| Text.SplitNone | app/package/steam_session/manager_session.py:124 | a text without the separator is a single part |
| Text.JoinSplit | app/ui/widgets/widget_app_selector.py:157 | joining the parts of a split with its separator gives back the text |
| Text.JoinAppend | app/ui/widgets/widget_app_selector.py:157 | joining with one more part appends the separator and that part |
| Text.SplitJoin | app/ui/widgets/widget_app_selector.py:157 | splitting a join of parts that do not contain the separator gives back the parts |
| Text.SplitFirst | app/package/steam_session/manager_session.py:130 | `split('=', 1)`: none without the separator; otherwise the text before its first occurrence and the text after it |
| Text.ReplaceAll | app/ui/pages/page_trade.py:810 | replacing a pattern that does not occur changes nothing |
| Text.ReplaceAllIsSplitJoin | app/ui/pages/page_trade.py:810 | `str.replace` is the same as splitting at the pattern and joining with the replacement |
| Text.JoinCons | app/ui/widgets/widget_app_selector.py:157 | joining a first part with the rest puts the separator between them |
| Text.StripLeft | app/ui/widgets/widget_app_selector.py:288 | removes exactly the leading whitespace |
| Text.StripRight | app/ui/widgets/widget_app_selector.py:288 | removes exactly the trailing whitespace |
| Text.Strip | app/ui/widgets/widget_app_selector.py:288 | `str.strip` leaves no whitespace at either end |
| Text.StripUnchanged | app/ui/widgets/widget_app_selector.py:288 | a text without whitespace at either end is stripped to itself |
| Text.StripIdempotent | app/ui/widgets/widget_app_selector.py:288 | stripping twice is stripping once |
| Text.DigitChar | app/ui/pages/page_trade.py:247 | the character for a decimal digit is a digit with that value |
| Text.NatToString | app/ui/pages/page_trade.py:247 | `str` of a natural number is all digits |
| Text.NatToStringRoundTrip | app/ui/pages/page_trade.py:247 | reading back the digits `str` wrote gives the number |
| Text.NatToStringInjective | app/ui/pages/page_trade.py:247 | different numbers are written differently |
| Text.DigitRunEnd | app/ui/pages/page_trade.py:805 | the greedy `[0-9]+` run from a position ends at the first non-digit |
| Text.DigitRunOfDigits | app/ui/pages/page_trade.py:805 | a run of digits followed by a non-digit ends where the digits do |

## Left out

- SteamAccount.Account.IsAliveSession: requires a non-None `account_name`. The source calls `self.account_name.lower()` (app/core/manager_class/account_class.py:49) after it has set `__last_check_time` (:46), so with no name it crashes there. That crash is not modelled.
- SteamAccount.Account.GetSteamWebToken: requires a non-None `account_name`, because it goes through `is_alive_session`. The crash described for IsAliveSession is not modelled.
- SteamAccount.Account.LoadWalletInfo: requires a non-None `account_name`, because it goes through `is_alive_session`. The crash described for IsAliveSession is not modelled.
- Login.CreateSteamSession.CreateRefreshToken: requires an account with a non-None `account_name`, because it checks the session through `is_alive_session` first. The crash described for IsAliveSession is not modelled.
- SellPricing.Round2: rounds half up on exact decimals. Python's `round` on binary floats (half-even on the stored double) is not modelled, so a price exactly between two cents can differ by one cent.
- Text.IsDigit: only ASCII `0`-`9`. The regex `\d` (app/ui/widgets/widget_app_selector.py:287, app/ui/pages/page_inventory.py:38) also matches every other Unicode decimal digit.
- Text.Lower: only ASCII letters. `str.lower` (app/core/manager_class/account_class.py:49) folds every Unicode letter.
- Text.IsNumeric: only ASCII digits. `str.isnumeric` also accepts Unicode numerics such as fractions and other scripts' digits.
- SellFlow.SellAllItemContent.StartSell: an exception raised by a `sell_item` call ends `start_sell` early in the source. The model has every sell call answer true or false.
- TradeAllocation.RowRequest: a count field is either empty (None) or an integer. Text that `int()` rejects raises ValueError in `on_press_add_icon_button` (app/ui/pages/page_trade.py:370, 550, 556), and that is not modelled.
- ProfileXml.ProfileInfo: the page is given as an already parsed element tree. A body that `ET.fromstring` cannot parse raises in the source (app/package/data_collectors/steam_profile_info.py:22), and that is not modelled.
- ItemStack.Descriptor.AddItems: units are values. In the source `add_items` appends the same `InventoryItem` object to both stacks, so a later change to its amount through one stack shows in the other. That aliasing is not modelled.
- TradeAllocation.Equilibrium: shares are keyed by the row's position, not by `get_item_id()`. The two agree when no two ready rows share a (classid, instanceid). When two rows do, the source's dictionary merges their shares.
- Login.CreateSteamSession.RunToEnd: the stdout reader thread and the wait for the process are sequentialised. The reader consumes all its lines before the end of the process is handled. The race between the reader thread and `process.wait` (app/package/steam_session/manager_session.py:338-365) is not modelled.
- Settings.SetThenGet: holds for the abstract settings store. `save_setting` stores a string as it is (app/database/sqlite_manager.py:95-101), and `get_setting` decodes the stored text with `json.loads` (:110-115). So a string property set to `"0"` reads back as the integer 0, `"null"` as None and `"true"` as True. The model reads back the string.
- AppSelector.SaveThenRestore: holds for the abstract settings store. Through `json.loads`, a saved `"0"` or `"null"` comes back as 0 or None, and `set_select_game` turns either into `''` (app/ui/widgets/widget_app_selector.py:183). So no selection is restored where the model restores that id. A saved digit string such as `"730"` comes back as the integer 730, whose `str` is the same text.
- Settings.WriteThenRead: holds for the abstract settings store. `get_setting` decodes the stored text with `json.loads` (app/database/sqlite_manager.py:114), so a string such as `"730"` reads back as the integer 730 and `True` reads back as 1. The model does not reproduce that decoding.
- AppCatalog.AppDetails.Save: the model notifies an `AppIdAdded` event. `EventName` in app/callback/callbacks.py:4-13 has no `ON_APP_ID_ADDED`. The model assumes the `EventName` exported by app/callback/__init__.py supplies it; that file is not part of this model. If it does not, the trigger at app/core/manager_class/app_details_class.py:61 raises AttributeError after the table has been written.
- AppCatalog.AppDetails.Delete: the same applies to `AppIdRemoved` and `ON_APP_ID_REMOVED`. The trigger is at app/core/manager_class/app_details_class.py:71.
- SellFlow.SellItemDialog.SetPriceGet: takes the parsed number. When the typed text holds no number, `parce_value` returns `''` and `_set_price_get('')` raises TypeError (app/ui/pages/page_inventory.py:1008-1010, 1034). That is not modelled.
- SellFlow.SellItemDialog.SetPriceSell: takes the parsed number. When the typed text holds no number, `_set_price_sell('')` raises TypeError (app/ui/pages/page_inventory.py:1011-1013, 1052). That is not modelled.
- Network requests are not modelled; their answers are parameters:
  - `create_trade_offer`, `fetch_session_id` and `fetch_market_priceoverview`;
  - `fetch_item_nameid` / `__load_item_nameid` and `fetch_market_itemordershistogram`;
  - the HTTP request inside `sell_item`, whose answers are a sequence;
  - `get_steam_profile_info`'s request, and `update_self_user` / `update_partner_user` (app/ui/pages/page_trade.py:770-799);
  - `get_steam_id_from_url`, which is a `lookup` parameter of the app-id selector;
  - `AppDetails.create_from_appid` (app/core/manager_class/app_details_class.py:35-47) and `get_icon_url`.
- `Account.load_all` (app/core/manager_class/account_class.py:150-158) and `AppDetails.load_all` (app/core/manager_class/app_details_class.py:89-94) are not modelled. They only list the tables, which the model holds as maps.
- Trade page UI handlers whose work the model covers through the basket and allocation methods they call are not modelled:
  - `on_click_create_trade_button` (app/ui/pages/page_trade.py:820-835);
  - `ItemRowContent.on_press_add_all_tonal_button`, `on_change_select_item_checkbox` and `on_change_count_item_input` (383-405);
  - `UserInventoryContent.on_press_add_all_tonal_button`, `on_callback_select_item` and `on_callback_remove_item` (607-652);
  - the `on_change_count_*_input` handlers (532-544);
  - `TradePageContent.on_callback_remove_item` (840-844).
- App-id selector UI is not modelled: the load and save buttons (app/ui/widgets/widget_app_selector.py:299-314), the dialog handlers (271-281), `update_button` and the loading threads.
- Inventory page dialogs are not modelled: `SellAllItemsDialog` (app/ui/pages/page_inventory.py:471-692), the display parts of `update_histogram`, the dialog's price thread, and the price and total texts (`update_price_content`).
- Flet controls, colours, text formatting and `update()` calls are not modelled anywhere.
- Concurrency is not modelled: `ThreadPoolExecutor` dispatch, locks and worker threads run one at a time in the model, each submission recorded in order.
- Floating-point arithmetic is not modelled: prices are exact `real`s.

## Findings

| source | as written | input that shows it | evidently intended | confidence | as-written member | corrected member |
|---|---|---|---|---|---|---|
| app/package/steam_session/manager_session.py:184 (also :261, :370) | every login flow calls `account.register_callback_session_expired(...)` right after starting the helper, but `Account` (app/core/manager_class/account_class.py) defines no such method, so it raises AttributeError | any QR or password login, even one whose helper exits 0, ends in one error notification and never in success; a refresh whose helper exits 0 notifies success and then an error | notify success when the helper exits 0, and only then | not executed | Login.AsWrittenNeverAuthenticates (on Login.OutcomeAsWritten; also Login.AsWrittenRefreshAlsoFails) | Login.Outcome |
| app/callback/callbacks.py:39-41 | `unregister` calls `list.remove` whenever the event key is known, which raises ValueError when the handler is not in that key's list | register handler A for ON_ACCOUNT_LOGGED_IN, then unregister handler B for it | no error and no change, as tests/test_callbacks.py:71-75 expects | not executed | EventBus.UnregisterMissingRaises (on EventBus.UnregisteredAsWritten) | EventBus.Unregistered (also EventBus.UnregisteredAgrees) |
