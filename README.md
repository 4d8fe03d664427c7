# Guild configuration store

A model of the per-guild configuration store of the PollPolice moderation bot
(`src/database.ts`). The store keeps three tables: guilds, exempt roles and
exempt channels. The guild table maps a guild id to a row with a name, an owner
id, a log channel, a post-delete notification toggle and a notification
message. Each exempt table holds unique `(id, guildId)` pairs. In the original,
a Prisma client reaches these tables. Here they are the fields of the class
`Database.Store`:

- `guilds: map<string, Guild>`, keyed by each row's own id (`Valid()`);
- `exemptRoles` and `exemptChannels: set<Exemption>`.

`Exemption(id, guildId)` is the row of either exempt table. Its `id` is the role
id or the channel id.

Module `Tables` (`tables.dfy`) defines, once, what the store does with each kind
of request:

- upsert by primary key or by composite key;
- delete by key, which fails with `NotFound` when the key has no row;
- batch insert;
- the `findMany` filter by guild.

Module `Database` (`database.dfy`) has one method or function per exported
function. Each sends exactly the payload the original sends:

- `createGuild` has an empty `update`;
- each `set*` function names a single column in both `update` and `create`;
- the bulk adds try a batch insert, catch its failure and add ids one by one.

The module states what every call does to all three tables.

The store either accepts the batch insert of a bulk add or rejects it, and the
model does not derive which. The method therefore takes the outcome as a
parameter (`batchAccepted`). Its contract holds for both outcomes. The original
fires the fallback upserts concurrently. Here they run as a sequential loop,
and `Tables.FallbackOrderIrrelevant` shows that, when every upsert succeeds,
their order cannot change the result. Query results the original returns as arrays (`findMany`) are sets of
rows here, because rows are unique and their order is unspecified.

`Store.SetLogChannel`, `Store.SetNotifyUserPostDelete` and
`Store.SetNotifyUserPostDeleteMessage` write their one column. When the guild
has no row, they create one holding only the id and that column. So calling
them before `createGuild` creates the guild.

## Model

| member | source | states |
|---|---|---|
| `Tables.UpsertGuild` | src/database.ts:11-25 | Meaning of a guild upsert, built from the helpers `Tables.ApplyUpdate`, `Tables.CreateRow` and `Tables.Written`: the key is present afterwards. No other row changes. A present key gets its row with exactly the columns the `update` payload mentions overwritten. An absent key gets a row built from the id and the `create` payload alone. An empty `update` leaves the table exactly as it was. The table stays keyed by row id. |
| `Tables.DeleteGuildRow` | src/database.ts:45-49 | Delete by primary key succeeds iff the key is present. It then removes exactly that key and keeps every other row. Otherwise it fails with NotFound. |
| `Tables.UpsertExemption` | src/database.ts:87-99 | An empty-update upsert on the composite key: afterwards the pair is present, nothing else is added, nothing is lost, and a present pair leaves the table unchanged. |
| `Tables.DeleteExemption` | src/database.ts:142-149 | Delete by composite key succeeds iff the pair is present. It then removes exactly that pair. Otherwise it fails with NotFound. |
| `Tables.Pairs` | src/database.ts:105-108 | The rows a bulk add sends are exactly the pairs (id, guildId) with id among the given ids. |
| `Tables.CreateMany` | src/database.ts:104-109 | An accepted batch adds every row of the batch. A rejected one fails with BatchFailed and yields no new table. |
| `Tables.UpsertEach` | src/database.ts:112-128 | The per-id fallback upserts end in the old table united with all the given pairs, whatever was already present. |
| `Tables.ForGuild` | src/database.ts:153-157 | Filtering by guild returns exactly the rows of that guild. |
| `Tables.FallbackOrderIrrelevant` | src/database.ts:112-128 | When every fallback upsert succeeds, issuing them in any sequential order over the same ids gives the same table. |
| `Tables.FallbackIdempotent` | src/database.ts:112-128 | Running the fallback twice has the effect of running it once. |
| `Tables.BatchAndFallbackAgree` | src/database.ts:102-130 | An accepted batch ends in the same table as the fallback would. |
| `Tables.BulkAddIsolation` | src/database.ts:152-158 | Adding pairs for one guild leaves another guild's exemption list unchanged. It extends its own list by exactly the given ids. |
| `Tables.DeleteIsolation` | src/database.ts:141-158 | Deleting a present pair removes it from its guild's list. Every other guild's list stays as it was. |
| `Database.Store.constructor` | src/database.ts:3 | A store over tables already holding the given rows. |
| `Database.Store.CreateGuild` | src/database.ts:6-26 | Makes sure the row exists. An existing row is not changed. A missing one is created with the given id, name and owner id and nothing else. The result is the stored row with its exemption lists and carries the given id. The exempt tables do not change. Its payloads are the empty `update` and `Database.CreateGuildPayload` (src/database.ts:15-20). The returned row is built by `Database.Store.WithExemptions` (the `include` at :21-24). |
| `Database.Store.GetGuild` | src/database.ts:28-38 | Returns a row iff the guild id is present. The row comes with exactly the exempt roles and exempt channels of that guild. The row with its lists is built by `Database.Store.WithExemptions` (the `include` at :33-36). |
| `Database.Store.GetGuilds` | src/database.ts:40-42 | Returns every guild row and nothing that is not a stored row. |
| `Database.Store.DeleteGuild` | src/database.ts:44-50 | On a present id, removes that row and returns it. On a missing id, fails with NotFound and leaves all three tables unchanged. Afterwards getGuild finds nothing. No exemption row is added, and other guilds' exemption rows are untouched. |
| `Database.Store.SetLogChannel` | src/database.ts:53-66 | On an existing guild, only `logChannelId` changes. On a missing one, a row with only the id and `logChannelId` is created. No other guild row and no exempt table changes. Its `update` and `create` payload is `Database.LogChannelPayload` (:58-64). |
| `Database.Store.SetNotifyUserPostDelete` | src/database.ts:68-84 | On an existing guild, only `notifyUserPostDelete` changes. On a missing one, a row with only the id and that column is created. Nothing else changes. Its `update` and `create` payload is `Database.NotifyUserPostDeletePayload` (:76-82). |
| `Database.Store.SetNotifyUserPostDeleteMessage` | src/database.ts:242-258 | On an existing guild, only `notifyUserPostDeleteMessage` changes. On a missing one, a row with only the id and that column is created. Nothing else changes. Its `update` and `create` payload is `Database.NotifyUserPostDeleteMessagePayload` (:250-256). |
| `Database.Store.AddExemptRole` | src/database.ts:86-100 | The exempt-role table becomes the old one plus the pair (an idempotent insert), and a check then finds the pair. The other tables do not change. |
| `Database.Store.AddExemptRoleBulk` | src/database.ts:102-130 | The batch may be accepted or rejected. Either way the exempt-role table becomes the old one united with all given pairs, and no error is returned. Every given id is then found by a check. The other tables do not change. |
| `Database.Store.CheckIfExemptRole` | src/database.ts:132-139 | Returns a row iff the pair is in the exempt-role table. The row is that pair. |
| `Database.Store.RemoveExemptRole` | src/database.ts:141-150 | Succeeds iff the pair was present and removes exactly that pair. Otherwise it fails with NotFound and changes nothing. A check then finds nothing. |
| `Database.Store.GetExemptRoles` | src/database.ts:152-158 | Returns only rows of the given guild. A role is listed iff a check for it in that guild succeeds. |
| `Database.Store.AddExemptChannel` | src/database.ts:160-173 | The exempt-channel table becomes the old one plus the pair, and a check then finds the pair. The other tables do not change. |
| `Database.Store.AddExemptChannelBulk` | src/database.ts:175-206 | The batch may be accepted or rejected. Either way the exempt-channel table becomes the old one united with all given pairs, and no error is returned. The other tables do not change. |
| `Database.Store.CheckIfExemptChannel` | src/database.ts:208-218 | Returns a row iff the pair is in the exempt-channel table. The row is that pair. |
| `Database.Store.RemoveExemptChannel` | src/database.ts:220-232 | Succeeds iff the pair was present and removes exactly that pair. Otherwise it fails with NotFound and changes nothing. |
| `Database.Store.GetExemptChannels` | src/database.ts:234-240 | Returns only rows of the given guild. A channel is listed iff a check for it in that guild succeeds. |

## Left out

- Construction of the Prisma client and its connection lifecycle (src/database.ts:1-3): I/O and a foreign library. The constructor takes the initial table contents instead.
- Async/await and Prisma's exception classes: a failure is a `Result` or `Outcome` value (`NotFound`, `BatchFailed`).
- Concurrency of `Promise.all` in the bulk fallback: modelled as a sequential loop. When they all succeed, the per-id upserts commute (`Tables.FallbackOrderIrrelevant`).
- Why a batch insert is rejected (a duplicate pair, a connection error): not derived. It is the `batchAccepted` parameter.
- Failures of the per-id fallback upserts themselves, such as connection errors, and races between concurrent upserts of the same pair when an id appears twice: the model's fallback always succeeds.
- Schema-level rules: the Prisma schema is not part of this model. That covers foreign keys from exemption rows to the guild table and the default `false` of `notifyUserPostDelete`. An unset column is `None`.
- Database.Store.DeleteGuild: promises nothing about whether the deleted guild's own exemption rows are removed, because cascade deletion is decided by the schema. It promises only that no rows are added and that other guilds' rows stay.
- Ordering of `findMany` results: lists are sets of rows.
