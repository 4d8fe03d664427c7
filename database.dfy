/** The per-guild configuration store of the moderation bot: one method per
    exported function, each sending the same payload as the original to the
    tables of module Tables. */
module Database {
  import opened Wrappers
  import opened Tables

  /** A guild row together with its exemption lists (`include` of both
      relations). Lists are unordered, so they are sets of rows. */
  datatype GuildWithExemptions = GuildWithExemptions(
    guild: Guild,
    exemptRoles: set<Exemption>,
    exemptChannels: set<Exemption>)

  /** The `create` payload of createGuild. Its `update` payload is empty. */
  function CreateGuildPayload(guildName: string, guildOwnerId: string): (payload: GuildData)
  {
    NoFields.(name := Some(guildName), ownerId := Some(guildOwnerId))
  }

  /** The payload of setLogChannel, used as both `update` and `create`. */
  function LogChannelPayload(channelId: string): (payload: GuildData)
  {
    NoFields.(logChannelId := Some(channelId))
  }

  /** The payload of setNotifyUserPostDelete, used as both `update` and `create`. */
  function NotifyUserPostDeletePayload(value: bool): (payload: GuildData)
  {
    NoFields.(notifyUserPostDelete := Some(value))
  }

  /** The payload of setNotifyUserPostDeleteMessage, used as both `update` and `create`. */
  function NotifyUserPostDeleteMessagePayload(message: string): (payload: GuildData)
  {
    NoFields.(notifyUserPostDeleteMessage := Some(message))
  }

  /** The store: the guild table and the two exemption tables. */
  class Store {
    var guilds: map<string, Guild>
    var exemptRoles: set<Exemption>
    var exemptChannels: set<Exemption>

    ghost predicate Valid()
      reads this
    {
      KeyedById(guilds)
    }

    /** A store over tables that already hold these rows. */
    constructor (guilds: map<string, Guild>, exemptRoles: set<Exemption>, exemptChannels: set<Exemption>)
      requires KeyedById(guilds)
      ensures Valid()
      ensures this.guilds == guilds && this.exemptRoles == exemptRoles && this.exemptChannels == exemptChannels
    {
      this.guilds := guilds;
      this.exemptRoles := exemptRoles;
      this.exemptChannels := exemptChannels;
    }

    /** The row of `guildId` with the exemption rows that reference it. */
    function WithExemptions(guildId: string): (row: GuildWithExemptions)
      requires guildId in guilds
      reads this
    {
      GuildWithExemptions(guilds[guildId], ForGuild(exemptRoles, guildId), ForGuild(exemptChannels, guildId))
    }

    // Guild operations

    /** createGuild: makes sure a row exists and never overwrites one. */
    method CreateGuild(guildId: string, guildName: string, guildOwnerId: string)
      returns (row: GuildWithExemptions)
      requires Valid()
      modifies this
      ensures Valid()
      ensures guildId in old(guilds) ==> guilds == old(guilds)
      ensures guildId !in old(guilds) ==>
        guilds == old(guilds)[guildId := Guild(guildId, Some(guildName), Some(guildOwnerId), None, None, None)]
      ensures exemptRoles == old(exemptRoles) && exemptChannels == old(exemptChannels)
      ensures GetGuild(guildId) == Some(row)
      ensures row.guild.id == guildId
    {
      guilds := UpsertGuild(guilds, guildId, NoFields, CreateGuildPayload(guildName, guildOwnerId));
      row := WithExemptions(guildId);
    }

    /** getGuild: the row with its exemption lists, or nothing. */
    function GetGuild(guildId: string): (r: Option<GuildWithExemptions>)
      reads this
      ensures r.Some? <==> guildId in guilds
      ensures r.Some? ==> r.value.guild == guilds[guildId]
      ensures r.Some? ==> forall e :: e in r.value.exemptRoles <==> e in exemptRoles && e.guildId == guildId
      ensures r.Some? ==> forall e :: e in r.value.exemptChannels <==> e in exemptChannels && e.guildId == guildId
    {
      if guildId in guilds then Some(WithExemptions(guildId)) else None
    }

    /** getGuilds: every guild row, without exemption lists. */
    function GetGuilds(): (r: set<Guild>)
      requires Valid()
      reads this
      ensures forall id :: id in guilds ==> guilds[id] in r
      ensures forall g :: g in r ==> g.id in guilds && guilds[g.id] == g
    {
      guilds.Values
    }

    /** deleteGuild: removes the row and returns it; fails with NotFound when
        there is none, leaving the store unchanged. */
    method DeleteGuild(guildId: string) returns (r: Result<Guild, StoreError>)
      requires Valid()
      modifies this
      ensures Valid()
      ensures r.Ok? <==> guildId in old(guilds)
      ensures r.Err? ==> r.error == NotFound && guilds == old(guilds)
      ensures r.Ok? ==> r.value == old(guilds)[guildId] && guilds == old(guilds) - {guildId}
      ensures GetGuild(guildId) == None
      ensures r.Err? ==> exemptRoles == old(exemptRoles) && exemptChannels == old(exemptChannels)
      ensures exemptRoles <= old(exemptRoles) && exemptChannels <= old(exemptChannels)
      ensures forall g :: g != guildId ==>
        ForGuild(exemptRoles, g) == ForGuild(old(exemptRoles), g) &&
        ForGuild(exemptChannels, g) == ForGuild(old(exemptChannels), g)
    {
      var deleted := DeleteGuildRow(guilds, guildId);
      match deleted
      case Ok(rest) =>
        r := Ok(guilds[guildId]);
        guilds := rest;
      case Err(e) =>
        r := Err(e);
    }

    // Set config operations

    /** setLogChannel: writes only `logChannelId`, creating a row holding only
        the id and that column when the guild has none. */
    method SetLogChannel(guildId: string, channelId: string)
      requires Valid()
      modifies this
      ensures Valid()
      ensures guilds.Keys == old(guilds).Keys + {guildId}
      ensures forall k :: k in old(guilds) && k != guildId ==> guilds[k] == old(guilds)[k]
      ensures guildId in old(guilds) ==> guilds[guildId] == old(guilds)[guildId].(logChannelId := Some(channelId))
      ensures guildId !in old(guilds) ==> guilds[guildId] == Guild(guildId, None, None, Some(channelId), None, None)
      ensures exemptRoles == old(exemptRoles) && exemptChannels == old(exemptChannels)
    {
      var payload := LogChannelPayload(channelId);
      guilds := UpsertGuild(guilds, guildId, payload, payload);
    }

    /** setNotifyUserPostDelete: writes only `notifyUserPostDelete`, creating
        a row holding only the id and that column when the guild has none. */
    method SetNotifyUserPostDelete(guildId: string, value: bool)
      requires Valid()
      modifies this
      ensures Valid()
      ensures guilds.Keys == old(guilds).Keys + {guildId}
      ensures forall k :: k in old(guilds) && k != guildId ==> guilds[k] == old(guilds)[k]
      ensures guildId in old(guilds) ==> guilds[guildId] == old(guilds)[guildId].(notifyUserPostDelete := Some(value))
      ensures guildId !in old(guilds) ==> guilds[guildId] == Guild(guildId, None, None, None, Some(value), None)
      ensures exemptRoles == old(exemptRoles) && exemptChannels == old(exemptChannels)
    {
      var payload := NotifyUserPostDeletePayload(value);
      guilds := UpsertGuild(guilds, guildId, payload, payload);
    }

    /** setNotifyUserPostDeleteMessage: writes only
        `notifyUserPostDeleteMessage`, creating a row holding only the id and
        that column when the guild has none. */
    method SetNotifyUserPostDeleteMessage(guildId: string, message: string)
      requires Valid()
      modifies this
      ensures Valid()
      ensures guilds.Keys == old(guilds).Keys + {guildId}
      ensures forall k :: k in old(guilds) && k != guildId ==> guilds[k] == old(guilds)[k]
      ensures guildId in old(guilds) ==>
        guilds[guildId] == old(guilds)[guildId].(notifyUserPostDeleteMessage := Some(message))
      ensures guildId !in old(guilds) ==> guilds[guildId] == Guild(guildId, None, None, None, None, Some(message))
      ensures exemptRoles == old(exemptRoles) && exemptChannels == old(exemptChannels)
    {
      var payload := NotifyUserPostDeleteMessagePayload(message);
      guilds := UpsertGuild(guilds, guildId, payload, payload);
    }

    // Exempt role operations

    /** addExemptRole: idempotent insert of the pair. */
    method AddExemptRole(guildId: string, roleId: string)
      requires Valid()
      modifies this
      ensures Valid()
      ensures exemptRoles == old(exemptRoles) + {Exemption(roleId, guildId)}
      ensures CheckIfExemptRole(guildId, roleId) == Some(Exemption(roleId, guildId))
      ensures guilds == old(guilds) && exemptChannels == old(exemptChannels)
    {
      exemptRoles := UpsertExemption(exemptRoles, Exemption(roleId, guildId));
    }

    /** addExemptRoleBulk: tries one batch insert; if the store rejects it, the
        error is caught and one upsert per id is issued instead. Either way
        every pair is present afterwards and no error reaches the caller. */
    method AddExemptRoleBulk(guildId: string, roleIds: seq<string>, batchAccepted: bool)
      requires Valid()
      modifies this
      ensures Valid()
      ensures exemptRoles == old(exemptRoles) + Pairs(guildId, roleIds)
      ensures forall id :: id in roleIds ==> CheckIfExemptRole(guildId, id).Some?
      ensures guilds == old(guilds) && exemptChannels == old(exemptChannels)
    {
      var batch := CreateMany(exemptRoles, Pairs(guildId, roleIds), batchAccepted);
      match batch
      case Ok(rows) =>
        exemptRoles := rows;
      case Err(_) =>
        var i := 0;
        while i < |roleIds|
          invariant 0 <= i <= |roleIds|
          invariant exemptRoles == UpsertEach(old(exemptRoles), guildId, roleIds[..i])
          invariant guilds == old(guilds) && exemptChannels == old(exemptChannels)
        {
          UpsertEachStep(old(exemptRoles), guildId, roleIds, i);
          exemptRoles := UpsertExemption(exemptRoles, Exemption(roleIds[i], guildId));
          i := i + 1;
        }
        assert roleIds[..i] == roleIds;
    }

    /** checkIfExemptRole: the row of the pair if there is one. */
    function CheckIfExemptRole(guildId: string, roleId: string): (r: Option<Exemption>)
      reads this
      ensures r.Some? <==> Exemption(roleId, guildId) in exemptRoles
      ensures r.Some? ==> r.value.id == roleId && r.value.guildId == guildId
    {
      if Exemption(roleId, guildId) in exemptRoles then Some(Exemption(roleId, guildId)) else None
    }

    /** removeExemptRole: deletes exactly the pair; fails with NotFound when
        it is absent, leaving the store unchanged. */
    method RemoveExemptRole(guildId: string, roleId: string) returns (r: Outcome<StoreError>)
      requires Valid()
      modifies this
      ensures Valid()
      ensures r.Pass? <==> Exemption(roleId, guildId) in old(exemptRoles)
      ensures r.Fail? ==> r.error == NotFound
      ensures exemptRoles == old(exemptRoles) - {Exemption(roleId, guildId)}
      ensures CheckIfExemptRole(guildId, roleId) == None
      ensures guilds == old(guilds) && exemptChannels == old(exemptChannels)
    {
      var deleted := DeleteExemption(exemptRoles, Exemption(roleId, guildId));
      match deleted
      case Ok(rows) =>
        exemptRoles := rows;
        r := Pass;
      case Err(e) =>
        r := Fail(e);
    }

    /** getExemptRoles: the exempt-role rows of one guild and no other. */
    function GetExemptRoles(guildId: string): (r: set<Exemption>)
      reads this
      ensures forall e :: e in r ==> e.guildId == guildId
      ensures forall roleId :: Exemption(roleId, guildId) in r <==> CheckIfExemptRole(guildId, roleId).Some?
    {
      ForGuild(exemptRoles, guildId)
    }

    // Exempt channel operations

    /** addExemptChannel: idempotent insert of the pair. */
    method AddExemptChannel(guildId: string, channelId: string)
      requires Valid()
      modifies this
      ensures Valid()
      ensures exemptChannels == old(exemptChannels) + {Exemption(channelId, guildId)}
      ensures CheckIfExemptChannel(guildId, channelId) == Some(Exemption(channelId, guildId))
      ensures guilds == old(guilds) && exemptRoles == old(exemptRoles)
    {
      exemptChannels := UpsertExemption(exemptChannels, Exemption(channelId, guildId));
    }

    /** addExemptChannelBulk: tries one batch insert; if the store rejects it,
        the error is caught and one upsert per id is issued instead. Either way
        every pair is present afterwards and no error reaches the caller. */
    method AddExemptChannelBulk(guildId: string, channelIds: seq<string>, batchAccepted: bool)
      requires Valid()
      modifies this
      ensures Valid()
      ensures exemptChannels == old(exemptChannels) + Pairs(guildId, channelIds)
      ensures forall id :: id in channelIds ==> CheckIfExemptChannel(guildId, id).Some?
      ensures guilds == old(guilds) && exemptRoles == old(exemptRoles)
    {
      var batch := CreateMany(exemptChannels, Pairs(guildId, channelIds), batchAccepted);
      match batch
      case Ok(rows) =>
        exemptChannels := rows;
      case Err(_) =>
        var i := 0;
        while i < |channelIds|
          invariant 0 <= i <= |channelIds|
          invariant exemptChannels == UpsertEach(old(exemptChannels), guildId, channelIds[..i])
          invariant guilds == old(guilds) && exemptRoles == old(exemptRoles)
        {
          UpsertEachStep(old(exemptChannels), guildId, channelIds, i);
          exemptChannels := UpsertExemption(exemptChannels, Exemption(channelIds[i], guildId));
          i := i + 1;
        }
        assert channelIds[..i] == channelIds;
    }

    /** checkIfExemptChannel: the row of the pair if there is one. */
    function CheckIfExemptChannel(guildId: string, channelId: string): (r: Option<Exemption>)
      reads this
      ensures r.Some? <==> Exemption(channelId, guildId) in exemptChannels
      ensures r.Some? ==> r.value.id == channelId && r.value.guildId == guildId
    {
      if Exemption(channelId, guildId) in exemptChannels then Some(Exemption(channelId, guildId)) else None
    }

    /** removeExemptChannel: deletes exactly the pair; fails with NotFound
        when it is absent, leaving the store unchanged. */
    method RemoveExemptChannel(guildId: string, channelId: string) returns (r: Outcome<StoreError>)
      requires Valid()
      modifies this
      ensures Valid()
      ensures r.Pass? <==> Exemption(channelId, guildId) in old(exemptChannels)
      ensures r.Fail? ==> r.error == NotFound
      ensures exemptChannels == old(exemptChannels) - {Exemption(channelId, guildId)}
      ensures CheckIfExemptChannel(guildId, channelId) == None
      ensures guilds == old(guilds) && exemptRoles == old(exemptRoles)
    {
      var deleted := DeleteExemption(exemptChannels, Exemption(channelId, guildId));
      match deleted
      case Ok(rows) =>
        exemptChannels := rows;
        r := Pass;
      case Err(e) =>
        r := Fail(e);
    }

    /** getExemptChannels: the exempt-channel rows of one guild and no other. */
    function GetExemptChannels(guildId: string): (r: set<Exemption>)
      reads this
      ensures forall e :: e in r ==> e.guildId == guildId
      ensures forall channelId :: Exemption(channelId, guildId) in r <==> CheckIfExemptChannel(guildId, channelId).Some?
    {
      ForGuild(exemptChannels, guildId)
    }
  }
}
