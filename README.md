# Discord bot dispatcher: registry and routing core

A Dafny model of the dispatcher in `main.js`, a discord.js v14 bot. It covers four parts:

- **Loading.** The two directory scans keep only `.js` files. Each file's exports are checked for their identity field and `execute`, accepted files go into the client's `commands` and `components` tables (the last file with a given key wins), and the batch of command schemas is built.
- **Configuration.** `TOKEN` and `CLIENT_ID` must be set; `GUILD_ID` is optional.
- **Registration.** At most one bulk put is made: to the guild route when `GUILD_ID` is set, otherwise to the global route, and none for an empty batch. A failing put is caught.
- **The `InteractionCreate` listener.** It classifies the interaction and resolves it. Component tokens are looked up exactly, then by the part before the first `:`. It then invokes the handler and isolates failures: the generic private reply is sent only when the interaction was neither replied to nor deferred, and a failure of that reply is swallowed.

The modules follow that split:

- `Handlers` (handlers.dfy) holds the shapes of a handler file's exports.
- `Loader` (loader.dfy) holds the `Client` class and its two loading loops, with their specification as folds over the directory listing.
- `Config` (config.dfy) holds the configuration check.
- `Sync` (sync.dfy) holds registration, plus the remote side seen as "bulk replace per route".
- `Router` (router.dfy) holds classification, resolution and the listener.
- `Bot` (bot.dfy) holds the startup order.

Handlers and the platform are opaque to the dispatcher, so they enter as parameters:

- whether the invoked handler returns or throws, and the interaction's `replied`/`deferred` flags at the throw;
- whether the platform accepts a reply the router sends;
- whether the registration put succeeds.

A listener run is described by its effect trace (reply attempts and handler invocations, in order) and by how it ends: `Completed`, `Failed` (through the `catch` block) or `Escaped` (an error leaves the listener).

In these cases the code behaves as follows, and the model follows the code:

- A duplicate command name or component id is not a load-time error and logs no warning: the later file silently replaces the earlier one in the table. The batch still holds one entry per accepted command file.
- A component whose `id` is the empty string is rejected, because `comp?.id` tests truthiness. Likewise an empty `GUILD_ID` means global registration.
- Prefix fallback is one extra lookup of the text before the first `:`, never a search over the registered keys.

## Model

| member | source | states |
|---|---|---|
| Loader.JsFiles | main.js:28-29 | every walked entry is a directory entry whose name ends in `.js`, every such entry is walked, and there are no more of them than entries |
| Loader.JsFilesAppend | main.js:29 | the filter keeps listing order and takes each entry once: filtering two parts and joining equals filtering the whole |
| Loader.JsFilesSingle | main.js:29 | a single directory entry is walked iff its name ends in `.js` |
| Loader.Client.constructor | main.js:22-23 | a new client has empty command and component tables |
| Loader.Client.LoadCommands | main.js:25-41 | the command table becomes the in-order, last-wins fold of the accepted `.js` files. The batch is the `data` of every accepted file in order; `skipped` names the rejected files. The component table is unchanged, and a missing directory changes nothing |
| Loader.Client.LoadComponents | main.js:43-57 | the component table becomes the last-wins fold of the `.js` files with a non-empty `id` and `execute`. `skipped` names the rest; the command table is unchanged |
| Loader.IndexKeys | main.js:34-36 | a key is in a loaded table iff it was there before or some accepted file carries it |
| Loader.IndexUntouched | main.js:34-36 | a key that no accepted file carries keeps its previous presence and value in the table |
| Loader.IndexLastWins | main.js:35 | among accepted files with the same key, the last one is what the table holds |
| Loader.IndexSkipsRejected | main.js:34-39 | a rejected file anywhere in the listing leaves the table exactly as if it were absent, so loading continues unaffected |
| Loader.SchemasSkipRejected | main.js:36-38 | a rejected command file leaves the registration batch exactly as if it were absent |
| Loader.LoadAccounting | main.js:34-39 | every command file is either in the batch or warned about: batch length plus warnings equals the number of `.js` files |
| Loader.IndexSize | main.js:51-55 | a table gains at most one key per accepted file |
| Loader.CommandTableSize | main.js:35-36 | with duplicate names collapsing in the table, the batch is never shorter than the command table |
| Config.ReadSettings | main.js:9-16 | settings exist iff `TOKEN` and `CLIENT_ID` are non-empty, otherwise the exit message. `GUILD_ID` is kept iff it is non-empty |
| Sync.RegistrationRoute | main.js:65-72 | the guild route iff a guild is configured, carrying the client id (and the guild id) |
| Sync.SyncCommands | main.js:60-77 | at most one put, and none iff the batch is empty. The put carries the whole batch to the chosen route. A failed put is a reported outcome, not an error |
| Sync.SyncReplacesScope | main.js:63-73 | after registration the chosen route holds exactly the batch, and every other route keeps its presence and its command set. An empty batch or a failed put leaves the remote side as it was |
| Sync.SyncIdempotent | main.js:67-71 | bulk replacement is idempotent: a second start with the same batch (each start registers again) leaves the remote side as the first one did |
| Router.PrefixBeforeColon | main.js:91 | `split(':')[0]` is a colon-free prefix of the token ending at its end or at a `:` |
| Router.PrefixUnique | main.js:91 | those three properties determine the prefix uniquely |
| Router.ResolveComponent | main.js:88-93 | an exact match always wins. Otherwise the key found is a colon-free `key:` prefix of the token; a miss means neither the token nor its prefix is registered |
| Router.PrefixFallback | main.js:87-93 | a token `key:rest` that is not itself registered resolves to the handler registered as `key` |
| Router.NoColonExactOnly | main.js:89-93 | for a token without `:` the second lookup repeats the first, so only an exact match resolves |
| Router.Dispatch | main.js:82-102 | a command's `execute` runs iff its name is registered, otherwise the command not-found reply. A component's `execute` runs under the key `ResolveComponent` finds iff it finds one, otherwise the component not-found reply. Autocomplete runs iff the command exists and has `autocomplete`, and nothing happens otherwise. Other interactions do nothing. Only registered handlers are invoked |
| Router.Handle | main.js:80-111 | no error leaves the listener, and every router reply is private. The resolved handler runs exactly once, followed by the fallback only if it threw on an unanswered interaction; no other handler runs. A miss yields the not-found reply, followed by the fallback only if the platform refused it. The fallback is attempted iff an error was caught while the interaction was neither replied to nor deferred. With delivered replies the router answers at most once |
| Router.HandleAsWritten | main.js:84 | the listener as written, with the not-found reply returned without `await` (lines 84 and 94): an error leaves it iff a lookup misses and the platform refuses the not-found reply, and then that reply is its only effect |
| Router.NotFoundReplyEscapes | main.js:94 | as written, an error leaves the listener iff a lookup misses and the not-found reply is refused, and then no fallback is tried. Otherwise it matches `Handle` |
| Router.UnknownPingOnExpiredInteraction | main.js:83-84 | `/ping` with no `ping` command on an interaction that refuses replies escapes as written; corrected, it ends in the fallback attempt |
| Router.HandleInteraction | main.js:80-111 | the step-by-step listener (early returns, `catch` block, guarded fallback) produces exactly the trace and ending of `Handle` |
| Router.RunComponent | main.js:88-95 | the two-step component lookup and its reply or invocation agree with `Dispatch` and with the error that reaches the `catch` block |
| Bot.Startup | main.js:18-77 | a fresh client is loaded from both directories, and the batch the command loader built is registered. A missing commands directory gives an empty table and no put |

## Findings

| source | as written | input that shows it | evidently intended | confidence | as-written member | corrected member |
|---|---|---|---|---|---|---|
| main.js:84 (and main.js:94) | `return interaction.reply(...)` inside the `try` of an async listener, without `await`: a rejected reply settles after the `try` block is left, so the `catch` never sees it and the rejection leaves the listener | a chat command `ping` that is not registered, on an interaction whose reply the platform refuses (e.g. expired) | `return await interaction.reply(...)`: the refused reply is caught, the interaction is still unanswered, so the fallback is attempted and its failure swallowed | not executed; follows from JavaScript's async semantics | Router.HandleAsWritten, Router.NotFoundReplyEscapes | Router.Handle, Router.HandleInteraction |

## Left out

- The Discord client itself is not modelled: its construction, gateway intents, `client.login`, the `ClientReady` presence update and `process.exit` on a failed login belong to the gateway lifecycle and the library.
- The REST transport and the URL strings built by `Routes` are not modelled; only which route is chosen and how many puts are made.
- `fs`, `path`, `require` and `dotenv` are not modelled. A directory is `None` when absent, otherwise its entries in listing order, each with the exports that loading it yields. A file whose loading throws would abort startup in the source; the model does not represent that.
- `command.data.toJSON()` is library serialisation: the batch holds the `data` value itself.
- Asynchronous scheduling is not modelled. Handlers running concurrently for different interactions, and registration running concurrently with login, are reduced to one interaction at a time.
- Console logging is not modelled. The loaders' warnings appear only as the list of skipped file names.
- What a handler does is a parameter: whether it throws, and the interaction's flags at that moment. Replies a handler sends itself do not appear in the trace.
- Which select menus `isSelectMenu()` recognises, and the fact that discord.js autocomplete interactions offer no `reply`, `replied` or `deferred`, are library behaviour. The `Env` parameter stands for whatever values those calls produce.
- The remote side is taken to be unchanged after a failed put (in `ApplySync`); the transport's real failure modes are outside the model.
- Router.Handle: states that the router replies at most once and guards the fallback, not that the interaction gets exactly one reply in total, because replies a handler sends itself are invisible to the dispatcher.
