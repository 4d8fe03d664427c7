/** The three tables behind the guild configuration store, and the meaning of
    the store operations the repository issues against them: upsert by key,
    delete by key, batch insert, and filtered reads. These are the semantics of
    the relational store itself; the repository's own decisions (which payload
    each call sends, what is caught) live in module Database. */
module Tables {
  import opened Wrappers

  /** A guild row. `id` is the primary key; every other column may be null. */
  datatype Guild = Guild(
    id: string,
    name: Option<string>,
    ownerId: Option<string>,
    logChannelId: Option<string>,
    notifyUserPostDelete: Option<bool>,
    notifyUserPostDeleteMessage: Option<string>)

  /** The non-key columns of an upsert payload (`update` or `create`).
      `None` means the payload does not mention that column. */
  datatype GuildData = GuildData(
    name: Option<string>,
    ownerId: Option<string>,
    logChannelId: Option<string>,
    notifyUserPostDelete: Option<bool>,
    notifyUserPostDeleteMessage: Option<string>)

  /** The empty payload `{}`. */
  const NoFields: GuildData := GuildData(None, None, None, None, None)

  /** A row of either exemption table: `id` is the role id or the channel id,
      and the pair (id, guildId) is the table's composite key. */
  datatype Exemption = Exemption(id: string, guildId: string)

  /** Errors the store can raise for the operations modelled here. */
  datatype StoreError =
    | NotFound     // delete of a key that has no row
    | BatchFailed  // a batch insert was rejected as a whole

  /** The guild table is keyed by each row's own id. */
  predicate KeyedById(rows: map<string, Guild>)
  {
    forall k :: k in rows ==> rows[k].id == k
  }

  /** A column after an update: written if the payload mentions it. */
  function Written<T>(payload: Option<T>, current: Option<T>): (column: Option<T>)
  {
    if payload.Some? then payload else current
  }

  /** An existing row after an `update` payload is applied to it. */
  function ApplyUpdate(row: Guild, update: GuildData): (updated: Guild)
  {
    Guild(row.id,
          Written(update.name, row.name),
          Written(update.ownerId, row.ownerId),
          Written(update.logChannelId, row.logChannelId),
          Written(update.notifyUserPostDelete, row.notifyUserPostDelete),
          Written(update.notifyUserPostDeleteMessage, row.notifyUserPostDeleteMessage))
  }

  /** A new row built from a `create` payload: unmentioned columns are null. */
  function CreateRow(id: string, create: GuildData): (created: Guild)
  {
    Guild(id, create.name, create.ownerId, create.logChannelId,
          create.notifyUserPostDelete, create.notifyUserPostDeleteMessage)
  }

  /** Upsert on the guild table: update the row whose key is `id` if there is
      one, otherwise insert a row made from `id` and `create`. */
  function UpsertGuild(rows: map<string, Guild>, id: string, update: GuildData, create: GuildData)
    : (r: map<string, Guild>)
    ensures r.Keys == rows.Keys + {id}
    ensures forall k :: k in rows && k != id ==> r[k] == rows[k]
    ensures KeyedById(rows) ==> KeyedById(r)
    ensures id in rows ==> r[id] == ApplyUpdate(rows[id], update)
    ensures id in rows && update == NoFields ==> r == rows
    ensures id !in rows ==> r[id] == Guild(id, create.name, create.ownerId, create.logChannelId,
                                           create.notifyUserPostDelete, create.notifyUserPostDeleteMessage)
  {
    if id in rows then rows[id := ApplyUpdate(rows[id], update)]
    else rows[id := CreateRow(id, create)]
  }

  /** Delete by primary key; fails when no row has that key. */
  function DeleteGuildRow(rows: map<string, Guild>, id: string): (r: Result<map<string, Guild>, StoreError>)
    ensures r.Ok? <==> id in rows
    ensures r.Err? ==> r.error == NotFound
    ensures r.Ok? ==> r.value.Keys == rows.Keys - {id}
    ensures r.Ok? ==> forall k :: k in r.value ==> r.value[k] == rows[k]
  {
    if id in rows then Ok(rows - {id}) else Err(NotFound)
  }

  /** Upsert on an exemption table with an empty `update` payload: the row
      is inserted if its composite key is new, and nothing changes otherwise. */
  function UpsertExemption(rows: set<Exemption>, row: Exemption): (r: set<Exemption>)
    ensures row in r
    ensures forall e :: e in r && e != row ==> e in rows
    ensures rows <= r
    ensures row in rows ==> r == rows
  {
    rows + {row}
  }

  /** Delete by composite key; fails when no row has that key. */
  function DeleteExemption(rows: set<Exemption>, row: Exemption): (r: Result<set<Exemption>, StoreError>)
    ensures r.Ok? <==> row in rows
    ensures r.Err? ==> r.error == NotFound
    ensures r.Ok? ==> row !in r.value && forall e :: e != row ==> (e in r.value <==> e in rows)
  {
    if row in rows then Ok(rows - {row}) else Err(NotFound)
  }

  /** The rows `ids.map(id => ({ guildId, id }))` that a bulk add sends. */
  function Pairs(guildId: string, ids: seq<string>): (r: set<Exemption>)
    ensures forall e :: e in r <==> e.guildId == guildId && e.id in ids
  {
    set id | id in ids :: Exemption(id, guildId)
  }

  /** Batch insert. Whether the store accepts the batch is not derived here
      (`accepted`); an accepted batch adds every row, a rejected one adds none. */
  function CreateMany(rows: set<Exemption>, batch: set<Exemption>, accepted: bool)
    : (r: Result<set<Exemption>, StoreError>)
    ensures r.Ok? <==> accepted
    ensures r.Err? ==> r.error == BatchFailed
    ensures r.Ok? ==> r.value == rows + batch
  {
    if accepted then Ok(rows + batch) else Err(BatchFailed)
  }

  /** One empty-update upsert per id, in order: the fallback of a bulk add.
      Whatever was already present, the result is plain set union. */
  function UpsertEach(rows: set<Exemption>, guildId: string, ids: seq<string>): (r: set<Exemption>)
    ensures r == rows + Pairs(guildId, ids)
    decreases |ids|
  {
    if ids == [] then rows
    else
      var front := ids[..|ids| - 1];
      assert ids == front + [ids[|ids| - 1]];
      UpsertExemption(UpsertEach(rows, guildId, front), Exemption(ids[|ids| - 1], guildId))
  }

  /** One more fallback upsert extends the prefix of ids handled by one. */
  lemma UpsertEachStep(rows: set<Exemption>, guildId: string, ids: seq<string>, i: nat)
    requires i < |ids|
    ensures UpsertEach(rows, guildId, ids[..i + 1])
         == UpsertExemption(UpsertEach(rows, guildId, ids[..i]), Exemption(ids[i], guildId))
  {
  }

  /** `findMany({ where: { guildId } })` on an exemption table. */
  function ForGuild(rows: set<Exemption>, guildId: string): (r: set<Exemption>)
    ensures forall e :: e in r <==> e in rows && e.guildId == guildId
  {
    set e | e in rows && e.guildId == guildId
  }

  /** The per-id upserts of the fallback commute: when every one of them
      succeeds, issuing them in any sequential order gives the same table.
      Races between concurrent upserts of the same pair are not covered. */
  lemma FallbackOrderIrrelevant(rows: set<Exemption>, guildId: string, ids: seq<string>, other: seq<string>)
    requires forall x :: x in ids <==> x in other
    ensures UpsertEach(rows, guildId, ids) == UpsertEach(rows, guildId, other)
  {
  }

  /** Running the fallback a second time changes nothing. */
  lemma FallbackIdempotent(rows: set<Exemption>, guildId: string, ids: seq<string>)
    ensures UpsertEach(UpsertEach(rows, guildId, ids), guildId, ids) == UpsertEach(rows, guildId, ids)
  {
  }

  /** A bulk add ends in the same table whether the batch was accepted or
      rejected and the fallback ran instead. */
  lemma BatchAndFallbackAgree(rows: set<Exemption>, guildId: string, ids: seq<string>)
    ensures CreateMany(rows, Pairs(guildId, ids), true) == Ok(UpsertEach(rows, guildId, ids))
  {
  }

  /** Lists stay isolated per guild: adding rows for `guildId` changes the
      list of another guild not at all, and extends the list of `guildId` by
      exactly the ids given. */
  lemma BulkAddIsolation(rows: set<Exemption>, guildId: string, ids: seq<string>, other: string)
    ensures other != guildId ==> ForGuild(UpsertEach(rows, guildId, ids), other) == ForGuild(rows, other)
    ensures ForGuild(UpsertEach(rows, guildId, ids), guildId) == ForGuild(rows, guildId) + Pairs(guildId, ids)
  {
  }

  /** Deleting one pair removes it from its guild's list and leaves every
      other guild's list as it was. */
  lemma DeleteIsolation(rows: set<Exemption>, row: Exemption, other: string)
    requires row in rows
    ensures DeleteExemption(rows, row).Ok?
    ensures ForGuild(DeleteExemption(rows, row).value, row.guildId) == ForGuild(rows, row.guildId) - {row}
    ensures other != row.guildId ==> ForGuild(DeleteExemption(rows, row).value, other) == ForGuild(rows, other)
  {
  }
}
