# Messaging, configuration and ORM core of rust-boilerplate, in Dafny

This project models the logic core of a Rust service template. It covers:

- **NATS messaging layer** (`libs/messaging`):
  - the message factory: subject prefixing, outbound header precedence and inbound conversion;
  - the middleware pipeline, with an event-trace semantics for handlers;
  - the client's subscription registry and its reconnect policy;
  - the sequential drain loop and the error classification of `publish`, `subscribe` and `request`;
  - the message envelope, the header injector/extractor and the handler adaptors.
- **Configuration loader** (`libs/configuration`): deep merge of JSON values, dotted-path get/set, environment key rewriting and the `parse_value` fallback chain.
- **ORM helpers** (`libs/db`): audit-column filling, the soft/hard delete decision, pagination normalisation and the generic repository over an in-memory table.
- **Adapter repository** (`crates/adapters`): the authenticated-user guard and the `users` entity mapping.
- **User service** (`crates/core`): registration and lookup over abstract ports.

Foreign behaviour is passed in as a parameter: the NATS driver, the clock, OpenTelemetry, serde and the database driver. For example, a `Sender` closure stands for the publish call, a `Reply` datatype for a request's outcome, and a stream of messages for a subscription.

Message handlers run under an event-trace semantics. Invoking a handler yields the events it emits together with its result. A middleware contributes one event before its inner handler and one after.

The imperative parts of the source are classes whose methods update fields. These are `NatsClient`, `Injector`, `Loader`, `ActiveModel`, `Table`, `Repository` and `PgRepository`. Each method's contract states its new state and its result in terms of the old state and its inputs, mostly through a specification function with lemmas of its own.

Module layout, one module per source file:

| module | file | models |
|---|---|---|
| `Wrappers` | wrappers.dfy | `Option`, `Result` |
| `Errors` | errors.dfy | `MessagingError` (libs/messaging/src/error.rs) |
| `Envelope` | envelope.dfy | libs/messaging/src/message.rs |
| `Headers` | headers.dfy | libs/messaging/src/nats/headers.rs |
| `Adaptors` | adaptors.dfy | libs/messaging/src/traits.rs |
| `Factory` | factory.dfy | libs/messaging/src/nats/factory.rs |
| `Middleware` | middleware.dfy | libs/messaging/src/nats/middleware.rs |
| `Client` | client.dfy | libs/messaging/src/nats/client.rs |
| `Json` | json.dfy | the `serde_json::Value` tree the loader works on, with its paths and merge |
| `Configuration` | loader.dfy | libs/configuration/src/loader.rs |
| `Audit` | audit.dfy | libs/db/src/orm/audit.rs |
| `Store` | store.dfy | the database table the repositories write to |
| `OrmRepo` | orm_repo.dfy | libs/db/src/orm/repo.rs, libs/db/src/orm/context.rs |
| `PgRepo` | pg_repo.dfy | crates/adapters/src/persistence/postgres/repo.rs |
| `Domain` | domain.dfy | crates/core/src/domain/entities/user.rs, crates/core/src/domain/ports/user_repo.rs |
| `UserRecord` | user_record.dfy | crates/adapters/src/database/entities/user.rs |
| `UserService` | user_service.dfy | crates/core/src/services/user_service.rs |

## Model

| member | source | states |
|---|---|---|
| Errors.Text | libs/messaging/src/error.rs:3-36 | the display text of each kind, its `#[error]` string with the detail appended; `TextIdentifiesError` is its property |
| Errors.TextIdentifiesError | libs/messaging/src/error.rs:3-36 | two errors with the same display text are the same error: the texts of different kinds never coincide |
| Envelope.New | libs/messaging/src/message.rs:23-29 | a new message keeps the topic and data and has no attribute for any key |
| Envelope.WithAttr | libs/messaging/src/message.rs:31-34 | the key then maps to the value, replacing any earlier one; topic, data and every other key are unchanged |
| Envelope.Attr | libs/messaging/src/message.rs:36-38 | `Some(v)` exactly when the key is present, with its stored value |
| Envelope.DecodeJson | libs/messaging/src/message.rs:40-43 | succeeds exactly when decoding the data succeeds; a failure becomes `Deserialization` with the decoder's message |
| Envelope.FromJson | libs/messaging/src/message.rs:45-52 | an encoding failure becomes `Serialization`; on success the topic and the encoded bytes are kept and the attributes are empty |
| Headers.Injected | libs/messaging/src/nats/headers.rs:9-13 | a valid name is inserted with its value, replacing any earlier one; an invalid name leaves the map as it was; other entries are unchanged |
| Headers.Injector.Set | libs/messaging/src/nats/headers.rs:9-13 | the injector's map becomes the old map with the header injected |
| Headers.InjectAll | libs/messaging/src/nats/factory.rs:127-130 | injecting the trace fields keeps every existing key, adds only keys of trace fields with valid names, and keeps the value of every key no trace field names |
| Headers.Get | libs/messaging/src/nats/headers.rs:19-21 | the stored value for a present key, `None` otherwise |
| Headers.Keys | libs/messaging/src/nats/headers.rs:23-25 | lists every header name, each exactly once, and nothing else |
| Adaptors.AsHandler | libs/messaging/src/traits.rs:14-23 | `Ok(())` becomes `Ok(None)` and an error passes through unchanged, for every message |
| Adaptors.AsReplyHandler | libs/messaging/src/traits.rs:25-31 | returns the wrapped function's result unchanged for every message |
| Adaptors.PublishJson | libs/messaging/src/traits.rs:43-51 | an encoding failure is `Serialization` and nothing is published; otherwise exactly one publish of the bytes with empty attributes, whose result is returned |
| Factory.Subject | libs/messaging/src/nats/factory.rs:31-37 | the pattern itself when the base path is empty, else base path + "." + pattern |
| Factory.InsertHeader | libs/messaging/src/nats/factory.rs:139-150 | succeeds exactly when the name is valid and then maps the name to the value; an invalid name is a `Publish` error carrying the name and the reason |
| Factory.StandardHeaders | libs/messaging/src/nats/factory.rs:119-125 | succeeds exactly when the three standard names are valid, giving `user_id` = actor or "system", `from` = service name, `start_time` = clock |
| Factory.ValidAttrs | libs/messaging/src/nats/factory.rs:127-134 | holds exactly the caller attributes whose names are valid, with their values |
| Factory.OutboundHeaders | libs/messaging/src/nats/factory.rs:112-137 | the reference definition of the outbound headers: the standard headers (whose failure is returned), then the trace headers, then the valid caller attributes winning; its properties are `OutboundHeadersFailure`, `StandardHeaderValues`, `CallerAttrsLast` and `BuildThenRead` |
| Factory.BuildHeaders | libs/messaging/src/nats/factory.rs:112-137 | the header map built step by step equals the standard headers, then the injected trace headers, then the valid caller attributes, or the first insert error |
| Factory.InjectTrace | libs/messaging/src/nats/factory.rs:127-130 | the injector's map becomes the old map with every valid trace field injected in order |
| Factory.InsertAttrs | libs/messaging/src/nats/factory.rs:132-134 | inserting the caller attributes one by one gives the map overridden by the valid ones; invalid names are skipped without failing |
| Factory.BuildMsg | libs/messaging/src/nats/factory.rs:47-66 | a header error is returned as is; otherwise the message has subject `Subject(pattern)`, no reply, the data unchanged and the headers present |
| Factory.ReadMessage | libs/messaging/src/nats/factory.rs:73-92 | always succeeds; the topic is the subject verbatim, the data is the payload, the attributes are the headers, or empty when there are none |
| Factory.ExtractTraceContext | libs/messaging/src/nats/factory.rs:102-110 | the context is extracted from the headers when present, else it is the empty context |
| Factory.OutboundHeadersFailure | libs/messaging/src/nats/factory.rs:119-125 | the build fails exactly when a standard header fails, and the first invalid standard name gives the `Publish` error |
| Factory.StandardHeaderValues | libs/messaging/src/nats/factory.rs:119-125 | the three standard headers are present, and a standard header that no trace field or caller attribute overrides keeps its standard value |
| Factory.CallerAttrsLast | libs/messaging/src/nats/factory.rs:127-134 | a valid caller attribute overrides standard and trace headers; an attribute with an invalid name neither fails the build nor changes the map |
| Factory.BuildThenRead | libs/messaging/src/nats/factory.rs:54-92 | reading a built message gives back the data, the prefixed subject, the three standard headers and every valid caller attribute |
| Middleware.Invoke | libs/messaging/src/nats/middleware.rs:6-23 | the reference semantics of running a handler: a publisher makes one send, a dispatcher reads the driver message and runs the handler, a layer runs its middleware's events around its inner handler; its properties are `InvokeApplied`, `InvokeTwo` and `TracingPassThrough` |
| Middleware.TraceScope | libs/messaging/src/nats/middleware.rs:56-75 | the span has system "nats", the operation label, the subject as destination and name "op subject"; its parent is taken from the headers, or is empty without them |
| Middleware.ApplyMiddleware | libs/messaging/src/nats/middleware.rs:29-39 | the composed handler is the right-nested application of the middlewares: the first one is outermost |
| Middleware.ReverseFoldIsNested | libs/messaging/src/nats/middleware.rs:34-38 | folding over the reversed list wraps the handler so that the first middleware ends up outermost |
| Middleware.ApplySmall | libs/messaging/src/nats/middleware.rs:34-38 | no middleware gives the handler itself; `[a]` gives `a(op, h)`; `[a, b]` gives `a(op, b(op, h))` |
| Middleware.ApplyLabels | libs/messaging/src/nats/middleware.rs:34-38 | every layer of the composed handler carries the same operation label |
| Middleware.InvokeApplied | libs/messaging/src/nats/middleware.rs:27-28 | invoking the composed handler emits every pre event in list order, then the handler's events, then the post events in reverse order, and returns the handler's result |
| Middleware.InvokeTwo | libs/messaging/src/nats/middleware.rs:27-28 | for `[a, b]` the events are a-pre, b-pre, the handler's, b-post, a-post |
| Middleware.TracingPassThrough | libs/messaging/src/nats/middleware.rs:47-82 | the tracing wrapper passes the message to its inner handler unchanged, returns the inner result unchanged and brackets it with its span |
| Client.ConnectOptionsFor | libs/messaging/src/nats/client.rs:47-54 | name and ping interval are kept; no reconnect gives limit 0, a non-negative maximum gives that limit, a negative one gives no limit |
| Client.ReconnectDelay | libs/messaging/src/nats/client.rs:59 | the delay is `min(attempts * 100, 8000)` ms: at most 8000, at most attempts * 100, and equal to one of the two |
| Client.ReconnectDelayMonotone | libs/messaging/src/nats/client.rs:59 | more attempts never give a shorter delay |
| Client.Connect | libs/messaging/src/nats/client.rs:29-85 | a disabled config is `Closed` without dialling; otherwise the dialled options carry the name, the ping interval and the reconnect limit (0 without reconnects, the configured count when it is not negative, unlimited otherwise); a dial failure is a `Subscribe` error; success gives a fresh client with the factory, the middlewares and an empty registry |
| Client.WrapHandler | libs/messaging/src/nats/client.rs:94-107 | the handler receives the message read from the NATS message; its success becomes `Ok(())` and its error becomes `Handler` with the error's text |
| Client.ErrorLogComplete | libs/messaging/src/nats/client.rs:123-131 | every failed run is logged with the topic and the run's error |
| Client.ErrorLogSound | libs/messaging/src/nats/client.rs:123-131 | every log entry comes from a failed run, and nothing is logged when all runs succeed |
| Client.Drain | libs/messaging/src/nats/client.rs:112-135 | every stream message is dispatched, in order, whatever the earlier results; the log holds the failures |
| Client.NatsClient.SpawnDrain | libs/messaging/src/nats/client.rs:112-135 | a new handle, never used before, records the drain task; the registry and the aborted handles are unchanged |
| Client.NatsClient.CancelSubscription | libs/messaging/src/nats/client.rs:137-142 | a present subject is removed and only its handle aborted; an absent subject changes nothing |
| Client.NatsClient.Register | libs/messaging/src/nats/client.rs:203-218 | a stream error is a `Subscribe` error with nothing changed; otherwise the prefixed subject maps to a new handle whose task runs the wrapped handler under the middlewares, replacing an earlier entry without aborting it |
| Client.NatsClient.Subscribe | libs/messaging/src/nats/client.rs:203-218 | registers under the label "subscriber", with the same outcomes as `Register` |
| Client.NatsClient.QueueSubscribe | libs/messaging/src/nats/client.rs:234-257 | registers under the label "queue_subscribe", with the same outcomes as `Register` |
| Client.NatsClient.Unsubscribe | libs/messaging/src/nats/client.rs:220-224 | always `Ok`; removes exactly the prefixed subject's entry and aborts only its handle, or changes nothing when it is absent |
| Client.NatsClient.Close | libs/messaging/src/nats/client.rs:189-198 | every registered handle is aborted and the registry is left empty; a drain failure gives `Closed` |
| Client.NatsClient.Publish | libs/messaging/src/nats/client.rs:147-186 | builds with no actor; a header error is returned with no events; otherwise the middlewares run under "publish" around one send of the captured subject, headers and data, whose error becomes a `Publish` error |
| Client.NatsClient.Request | libs/messaging/src/nats/client.rs:270-301 | encoding failure is `Serialization`; only the payload is sent, with no headers, to the prefixed subject; a timeout is `Request("request timed out")`, a driver failure is `Request`, an undecodable reply is `Deserialization` |
| Json.Index | libs/configuration/src/loader.rs:109 | indexing a missing key or a non-object gives `Null` |
| Json.Lookup | libs/configuration/src/loader.rs:101-112 | the reference definition of `get`'s walk: index one segment at a time, a missing key or a non-object giving null; its properties are `LookupNull`, `LookupEmptyObj`, `SetThenLookup` and `Configuration.Loader.Get` |
| Json.SetPath | libs/configuration/src/loader.rs:116-135 | the reference definition of `set`'s walk: replace null intermediates by empty objects, fail on any other non-object, store the value at the last segment; its properties are `SetPathSucceeds`, `SetThenLookup`, `SetPathKeepsOthers` and `Configuration.Loader.Set` |
| Json.LookupNull | libs/configuration/src/loader.rs:105-110 | every path from `Null` reads `Null` |
| Json.SetThenLookup | libs/configuration/src/loader.rs:101-135 | after a successful set, reading the same path gives the value set |
| Json.LookupEmptyObj | libs/configuration/src/loader.rs:28-33 | the empty config reads `Null` at every non-empty path |
| Json.SetPathSucceeds | libs/configuration/src/loader.rs:123-133 | a set succeeds exactly when every intermediate it walks through is an object or null |
| Json.SetPathKeepsOthers | libs/configuration/src/loader.rs:123-133 | a set leaves every path that branches off its own path unchanged |
| Json.Merge | libs/configuration/src/loader.rs:195-211 | a non-object on either side gives the override; two objects give the union of keys, keeping base-only keys |
| Json.MergeAtOverrideKey | libs/configuration/src/loader.rs:198-205 | at a key of the override, the merged value is the merge of the base's value (or null) with the override's |
| Json.MergeIdempotent | libs/configuration/src/loader.rs:195-211 | merging a value with itself gives the value |
| Json.MergeIntoNull | libs/configuration/src/loader.rs:209 | merging into null gives the override |
| Json.MergeKeepsOverrideLeaf | libs/configuration/src/loader.rs:195-211 | every non-null leaf of the override is found at its path in the merge |
| Configuration.Split | libs/configuration/src/loader.rs:102 | the dot-split gives at least one segment |
| Configuration.SplitNoDot | libs/configuration/src/loader.rs:102 | no segment of the dot-split holds a dot |
| Configuration.SplitJoin | libs/configuration/src/loader.rs:102 | joining the segments with dots gives the key back |
| Configuration.ParseI64 | libs/configuration/src/loader.rs:175 | a parsed integer is within the i64 range and the text is digits with an optional leading sign |
| Configuration.ParseValue | libs/configuration/src/loader.rs:168-191 | when the text is not JSON: text that `parse::<i64>` accepts becomes that integer, ahead of the float reading; otherwise a finite float reading becomes that float; an integer result is within the i64 range, a null comes only from a non-finite float, a string is the text itself, and a boolean comes only from one of the six boolean words |
| Configuration.JsonFirst | libs/configuration/src/loader.rs:170-172 | text that parses as JSON gives that JSON value |
| Configuration.ParseI64RejectsLetter | libs/configuration/src/loader.rs:175 | text with a character other than a digit or a sign is not an integer |
| Configuration.YesNoAreBooleans | libs/configuration/src/loader.rs:184-187 | "yes" and "no", in any case, give true and false |
| Configuration.UnparsedStaysText | libs/configuration/src/loader.rs:190-191 | text that is neither JSON, a number nor a boolean word stays a string |
| Configuration.NonFiniteIsNull | libs/configuration/src/loader.rs:179-181 | a non-finite float becomes `Null` |
| Configuration.Lower | libs/configuration/src/loader.rs:85 | the key keeps its length; each ASCII capital becomes its lower-case letter and every other character is kept |
| Configuration.Upper | libs/configuration/src/loader.rs:31 | the prefix keeps its length; each ASCII small letter becomes its capital and every other character is kept |
| Configuration.DoubleUnderscoreToDot | libs/configuration/src/loader.rs:86 | the rewrite never makes the key longer |
| Configuration.KeepsPlainChars | libs/configuration/src/loader.rs:86 | a run without underscores passes through the rewrite unchanged |
| Configuration.NoUpperSurvives | libs/configuration/src/loader.rs:85-86 | the rewrite brings back no upper-case letter |
| Configuration.StripPrefix | libs/configuration/src/loader.rs:83-84 | the prefix is removed when the key starts with it, else the key is kept |
| Configuration.DoubleUnderscoreToDotFirst | libs/configuration/src/loader.rs:86 | the rewrite keeps a leading character that is not an underscore |
| Configuration.NoDoubleUnderscoreLeft | libs/configuration/src/loader.rs:86 | the rewritten key holds no two adjacent underscores |
| Configuration.EnvKey | libs/configuration/src/loader.rs:82-86 | the reference definition of an environment variable's key: strip the prefix and its underscore, lower-case, turn `__` into `.`; its properties are `EnvKeyShape` and `EnvKeyExample` |
| Configuration.EnvKeyShape | libs/configuration/src/loader.rs:82-86 | an environment key holds no upper-case letter and no double underscore |
| Configuration.EnvKeyExample | libs/configuration/src/loader.rs:75 | `APP_DATABASE__HOST` becomes `database.host` |
| Configuration.Loader.constructor | libs/configuration/src/loader.rs:28-33 | the config starts as an empty object and the prefix is the upper-cased prefix or "APP" |
| Configuration.Loader.Get | libs/configuration/src/loader.rs:101-113 | the cursor loop reads the value at the dot-split path, null where it is missing or null |
| Configuration.Loader.Set | libs/configuration/src/loader.rs:116-135 | the walk creates missing or null intermediates and stores the parsed value at the last segment; a non-object intermediate (a panic in the source) leaves the config unchanged |
| Configuration.Loader.LoadEnv | libs/configuration/src/loader.rs:76-91 | exactly the variables starting with the prefix are set, each once, under their rewritten keys with parsed values |
| Configuration.Loader.Load | libs/configuration/src/loader.rs:37-72 | a read failure is `FileError` and a parse failure `ParseError`, both leaving the config unchanged; otherwise the file is merged over the config |
| Configuration.Loader.MergeValues | libs/configuration/src/loader.rs:195-211 | the recursive merge with its insert loop computes `Merge` |
| Audit.Stamp | libs/db/src/orm/audit.rs:29-39 | exactly the wanted columns that exist are set to their values; every other field is unchanged |
| Audit.CreateAudited | libs/db/src/orm/audit.rs:17-43 | the reference definition of `fill_create_audit`: the creation pair, then the update pair stamped where those columns exist; its properties are `CreateAuditValues`, `CreateAuditedKeys` and `ActiveModel.FillCreateAudit` |
| Audit.CreateAuditedKeys | libs/db/src/orm/audit.rs:17-43 | the create audit of a model holding exactly the entity's columns holds exactly those columns |
| Audit.UpdateAudited | libs/db/src/orm/audit.rs:46-57 | the reference definition of `fill_update_audit`: the update pair, always; `ActiveModel.FillUpdateAudit` and `OrmRepo.UpdateOutcome` state it |
| Audit.DeleteAudited | libs/db/src/orm/audit.rs:63-82 | the reference definition of `fill_delete_audit`: the deletion pair stamped where those columns exist; its properties are `DeleteAuditValues` and `ActiveModel.FillDeleteAudit` |
| Audit.SoftDeletable | libs/db/src/orm/audit.rs:84-105 | the reference definition of `should_be_soft`: the entity has a `deleted_at` or `deleted_by` column; `ActiveModel.ShouldBeSoft` is proved equal to it |
| Audit.CreateAuditValues | libs/db/src/orm/audit.rs:17-43 | `created_at`/`created_by` are set to now and user; `updated_*` are set to the same only when those columns exist; other columns are unchanged |
| Audit.DeleteAuditValues | libs/db/src/orm/audit.rs:63-82 | `deleted_*` are set only where those columns exist; no other column changes; without them nothing changes |
| Audit.Edited | libs/db/src/orm/repo.rs:95 | the edited columns are set to the new values and the others are unchanged |
| Audit.ActiveModel.FillCreateAudit | libs/db/src/orm/audit.rs:17-43 | the loop over the columns leaves the fields equal to the create audit of the old fields |
| Audit.ActiveModel.FillUpdateAudit | libs/db/src/orm/audit.rs:46-57 | `updated_at`/`updated_by` become now and user; the rest is unchanged |
| Audit.ActiveModel.FillDeleteAudit | libs/db/src/orm/audit.rs:63-82 | the loop over the columns leaves the fields equal to the delete audit of the old fields |
| Audit.ActiveModel.ShouldBeSoft | libs/db/src/orm/audit.rs:84-105 | true exactly when a column is named `deleted_at` or `deleted_by` |
| Audit.ActiveModel.Assign | libs/db/src/orm/repo.rs:95 | the fields become the edited fields |
| Store.Materialized | libs/db/src/orm/repo.rs:34 | an inserted row holds every set value, with unset columns null |
| Store.IntoActive | libs/db/src/orm/repo.rs:65 | the active model of a stored row has the row's columns, each holding its stored value, unchanged |
| Store.Written | libs/db/src/orm/repo.rs:74 | an update writes exactly the set columns and keeps the stored value of the others |
| Store.WrittenUnchanged | libs/db/src/orm/repo.rs:74 | writing back an untouched active model leaves the row as it was |
| Store.InsertedAll | libs/db/src/orm/repo.rs:42-48 | every inserted key is present, earlier keys stay, and nothing else appears |
| Store.InsertedAllKeepsOthers | libs/db/src/orm/repo.rs:42-48 | a stored row that no inserted model is keyed by keeps its value |
| Store.InsertedAllStores | libs/db/src/orm/repo.rs:42-48 | under the key of the last model with that key sits that model's materialised row |
| Store.InsertedAllSnoc | libs/db/src/orm/repo.rs:46-48 | inserting one more model stores its row under its key over the rows inserted before it |
| Store.Table.Find | libs/db/src/orm/repo.rs:56-64 | the row stored under the key, `None` when absent |
| Store.Table.Insert | libs/db/src/orm/repo.rs:34 | the table gains the materialised row under its key |
| Store.Table.Update | libs/db/src/orm/repo.rs:74 | an absent key is `RecordNotUpdated` with nothing written; otherwise the row is written and stored |
| Store.Table.Delete | libs/db/src/orm/repo.rs:71-73 | removes the key and reports one row affected when it was present, none otherwise |
| Store.Table.InsertMany | libs/db/src/orm/repo.rs:46-48 | the rows become `InsertedAll` of the old rows and the models, inserted in order, so each inserted key holds its last model's row and every other row keeps its value |
| OrmRepo.SystemContext | libs/db/src/orm/context.rs:11-15 | the system context acts as "system" |
| OrmRepo.NormalizedPage | libs/db/src/orm/repo.rs:113 | the page is at least 1: a given page of at least 1 is kept, a missing or zero page is 1 |
| OrmRepo.NormalizedPageSize | libs/db/src/orm/repo.rs:114 | the size is in [1, 100]: missing gives 10, in range is kept, 0 gives 1, above 100 gives 100 |
| OrmRepo.PageCount | libs/db/src/orm/repo.rs:118 | the page count is the least number of pages that holds every item |
| OrmRepo.FetchPage | libs/db/src/orm/repo.rs:119 | the page holds at most `size` rows: the rows from `index * size` on, or none past the end |
| OrmRepo.PaginateQuery | libs/db/src/orm/repo.rs:101-132 | echoes the normalised page and size and the totals; items are always present and are the mapping of the fetched rows, in order |
| OrmRepo.EveryRowOnItsPage | libs/db/src/orm/repo.rs:117-119 | every row sits on the page `i / size` within the page count, at offset `i % size` |
| OrmRepo.RequestedPage | crates/adapters/src/persistence/postgres/repo.rs:213-219 | the requested page `p` holds at most `size` mapped rows, row `k` being the row at offset `(p - 1) * size + k`; it is non-empty exactly when `p` is within the page count |
| OrmRepo.FetchedRows | libs/db/src/orm/repo.rs:119 | the page with index `i` holds the rows from offset `i * size` on, and is empty exactly when that offset is past the end |
| OrmRepo.PageWithinCount | libs/db/src/orm/repo.rs:118-119 | a page counted from one is within the page count exactly when its first row exists |
| OrmRepo.UpdateOutcome | libs/db/src/orm/repo.rs:95-96 | after an update the audit fields are now and the user even when edited, the other edited columns take their new values, and the rest is unchanged |
| OrmRepo.Repository.Create | libs/db/src/orm/repo.rs:24-35 | the entity is filled with the create audit of the context's id, then inserted |
| OrmRepo.Repository.CreateMany | libs/db/src/orm/repo.rs:37-49 | every entity is filled with the create audit of the context's id, then all are inserted: the rows become `InsertedAll` of the old rows and the audited fields, so each inserted key holds its last entity's audited row and every other row keeps its value |
| OrmRepo.Repository.Update | libs/db/src/orm/repo.rs:78-99 | a missing id is `RecordNotFound` with nothing written; otherwise the edits then the update audit are written, under the original id unless the edits change it |
| OrmRepo.Repository.Delete | libs/db/src/orm/repo.rs:51-76 | a missing id is `RecordNotFound`; a soft-deletable table writes the delete audit and reports one row; otherwise the row is removed |
| OrmRepo.UpdateKeepsKeyColumn | libs/db/src/orm/repo.rs:89-96 | the written model still carries the primary key, unchanged unless edited |
| OrmRepo.DeleteKeepsKeyColumn | libs/db/src/orm/repo.rs:66-70 | the soft-deleted model still carries the unchanged primary key |
| PgRepo.AuthenticatedUser | crates/adapters/src/persistence/postgres/repo.rs:21-23 | the accessor for the context's user, absent when the context has none; `RequireUser` is the guard built on it |
| PgRepo.AuthenticatedUserOfNew | crates/adapters/src/persistence/postgres/repo.rs:17-23 | the authenticated user is exactly the one the context was created with |
| PgRepo.RequireUser | crates/adapters/src/persistence/postgres/repo.rs:142-144 | no user is `Custom("user required for this operation")`; otherwise the user |
| PgRepo.PgRepository.Create | crates/adapters/src/persistence/postgres/repo.rs:133-149 | without a user nothing changes and the guard error is returned; otherwise the create audit with the user's id is filled and the row inserted |
| PgRepo.PgRepository.Update | crates/adapters/src/persistence/postgres/repo.rs:175-199 | the guard comes before the lookup; a missing record is `RecordNotFound`; otherwise the edits then `updated_*` = now and the user's id are written |
| PgRepo.PgRepository.Delete | crates/adapters/src/persistence/postgres/repo.rs:151-173 | the guard comes before the lookup; a missing record is `RecordNotFound`; otherwise the delete audit with the user's id is written and the row returned; a table without deletion columns is unchanged |
| Domain.NewUser | crates/core/src/domain/entities/user.rs:12-19 | a new user keeps the id, username and email and is active |
| UserRecord.ToUser | crates/adapters/src/database/entities/user.rs:24-32 | the user has the model's id, username, email and active flag |
| UserRecord.ToUserIgnoresAudit | crates/adapters/src/database/entities/user.rs:24-32 | models that differ only in their audit fields give the same user |
| UserRecord.FromUser | crates/adapters/src/database/entities/user.rs:35-44 | the four user columns are set to the user's values and every audit column is left not set |
| UserRecord.FromUserReadBack | crates/adapters/src/database/entities/user.rs:24-44 | reading back the four set fields of the active model gives the same user |
| UserRecord.UsersAreHardDeleted | crates/adapters/src/database/entities/user.rs:6-16 | the `users` table has no deletion column, so its rows are deleted outright |
| UserRecord.CreatedUserRow | crates/adapters/src/database/entities/user.rs:6-44 | a user inserted with the create audit is stored as a row that decodes to the same user, created and updated by the actor at the same instant |
| UserService.RegisterUser | crates/core/src/services/user_service.rs:21-39 | the new user is saved first; a save failure is returned and nothing is published; otherwise the user is published to "user.created" and `Ok(user)` returned |
| UserService.RegisteredUserIsActive | crates/core/src/services/user_service.rs:27 | a registered user has the given id, username and email and is active |
| UserService.PublishOutcomeIgnored | crates/core/src/services/user_service.rs:32-38 | the result does not depend on the publisher or the encoding: a publish failure is ignored |
| UserService.PublishesCreatedEvent | crates/core/src/services/user_service.rs:32-36 | after a successful save and encoding, the user's bytes are published exactly once to "user.created" with no attributes |
| UserService.GetUser | crates/core/src/services/user_service.rs:41-43 | a repository error is returned unchanged, an absent user is `NotFound`, a found user is returned |

## Left out

- NATS driver I/O is not modelled: connecting, publishing, subscription streams, `send_request` and `drain`. Their outcomes are parameters: a dial function, a `Sender`, a stream of messages or a stream error, a `Reply`, and the drain result.
- The driver's event callbacks only print, so they are not modelled.
- Tokio tasks, abort handles and the `Mutex` around the registry are not modelled. Handles are numbers drawn from a counter, aborting adds a handle to the `aborted` set, and each drain task is recorded in `tasks`.
- The drain loop runs sequentially over a finite message sequence. Per-message concurrency is not modelled.
- A request timeout is the `TimedOut` reply, not wall-clock behaviour.
- `Utc::now` and RFC 3339 formatting are not modelled. The clock is a string parameter in the factory and an integer instant in the ORM.
- OpenTelemetry's global propagator, spans and exporters are not modelled.
  - The injected trace headers are a list of name/value pairs passed in.
  - A span is the pair of `SpanOpened`/`SpanClosed` events.
  - The trace context extracted from headers is recorded, not decoded.
- Header-name validation in `async_nats` is a parameter (`NameParser`), so the model does not fix which names are valid.
- Headers.InjectAll: states which keys can appear and which values are kept, but not which value a repeated trace field leaves behind; that is stated through `Headers.Injector.Set` step by step.
- Custom middlewares are arbitrary closures in the source. They are modelled as tags that bracket their inner handler with one event before and one after and pass its result through.
- The queue group of `queue_subscribe` only shapes the driver's stream and is not modelled.
- `NatsClient::inner` is an accessor for the raw driver and is not modelled.
- Client.ReconnectDelay: does not model the `usize` overflow of `attempts * 100`, because attempt counts never come near it.
- serde_json, serde_yaml and toml parsing and serialisation are not modelled. JSON and float parsing of config values are parameters (`Parsers`), file parsing is a function parameter, and message encoding and decoding are results passed in.
- File reads in `load_yaml`/`load_toml`/`load_json` are not modelled; the file content is a result passed in. The three loaders share one model, `Loader.Load`.
- `env::vars` and `dotenvy` are not modelled; the environment is a map passed in.
- `load_dotenv`, `as_json`, `deserialize`, `deserialize_key` and `print` are not modelled: they are I/O or foreign deserialisation.
- Configuration.Loader.LoadEnv: the source iterates a `HashMap`, whose order is unspecified. The model returns the order it used, and the final config is stated for that order.
- Configuration.Lower and Configuration.Upper only map ASCII letters; Rust's Unicode case mapping is not modelled.
- Configuration.ParseI64: covers the range and the characters accepted, not the exact value of the digits.
- Store.Materialized: a column an insert leaves not set takes its database default; the model writes that default as null. After the create audit no entity in this core reaches an insert with a not-set column (`UserRecord.CreatedUserRow`).
- Configuration.ParseValue: "1" and "0" are already parsed as JSON numbers, so the boolean arm never sees them. A non-finite float becomes `Null`, as `json!` does for NaN and infinities.
- `set`'s early return for an empty split is unreachable, because a split always yields at least one segment (`Configuration.Split`).
- When `set` meets a non-object intermediate, the source panics. The model returns `false` instead, and the config is unchanged because the panic comes before any write.
- `fill_values` is a caller closure over the active model. It is modelled as a map of column assignments (`Audit.Edited`).
- sea_orm database access is not modelled. One table is a map from the `id` column's value to a row.
  - Driver failures are not modelled.
  - Inserting an existing key overwrites it, where the database would reject the insert.
  - Auto-generated keys are not modelled: an entity must carry its `id`.
- The thin repository wrappers in `crates/adapters/src/persistence/postgres/user_repo.rs` and `crates/adapters/src/database/postgres/user_repo.rs` are not modelled, and neither is `libs/db/src/orm/init.rs`.
- The `make_deletable` macro in `crates/adapters/src/persistence/postgres/repo.rs:112-122` is malformed and never invoked. The adapter's delete uses the library's column-driven delete audit instead (`Audit.DeleteAudited`).
- `paginate_query` in `crates/adapters/src/persistence/postgres/repo.rs:201-232` has the same body as the library's. Both are modelled by `OrmRepo.PaginateQuery`.
- Random ids (`generate_nanoid`) are not modelled; the new user's id is a parameter of `UserService.RegisterUser`.
- Outside the model:
  - the HTTP layer;
  - the config structs and their global getters;
  - the telemetry meters;
  - the raw-client publisher wrapper.
  These are framework glue, declarations or floating-point system metrics.
