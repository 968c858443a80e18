/** Command registration (main.js lines 59-77): one bulk put of the whole batch, to the
    guild's route when a guild is configured and to the application's global route
    otherwise, skipped when the batch is empty; a failing put is caught and logged.

    The REST transport is outside the model: whether the put succeeds is a parameter, and
    the remote side is modelled only as the command set it holds per route. */
module Sync {
  import opened Wrappers
  import opened Handlers

  /** `Routes.applicationGuildCommands(CLIENT_ID, GUILD_ID)` and
      `Routes.applicationCommands(CLIENT_ID)`. */
  datatype Route =
    | ApplicationGuildCommands(clientId: string, guildId: string)
    | ApplicationCommands(clientId: string)

  datatype PutRequest = PutRequest(route: Route, body: seq<CommandData>)

  datatype SyncOutcome = NothingToRegister | Registered(route: Route) | RegistrationFailed(route: Route)

  /** The puts issued, in order, and how the registration ended. */
  datatype SyncReport = SyncReport(requests: seq<PutRequest>, outcome: SyncOutcome)

  /** The scope choice: the guild route exactly when a guild is configured. */
  function RegistrationRoute(clientId: string, guildId: Option<string>): (route: Route)
    ensures route.clientId == clientId
    ensures route.ApplicationGuildCommands? <==> guildId.Some?
    ensures route.ApplicationGuildCommands? ==> route.guildId == guildId.value
  {
    match guildId
    case Some(g) => ApplicationGuildCommands(clientId, g)
    case None => ApplicationCommands(clientId)
  }

  /** The registration task: at most one put, none for an empty batch; a failed put is an
      outcome, never an error that leaves the task. */
  function SyncCommands(clientId: string, guildId: Option<string>, slashCommands: seq<CommandData>, putSucceeds: bool): (r: SyncReport)
    ensures |r.requests| <= 1
    ensures r.requests == [] <==> slashCommands == []
    ensures r.requests == [] ==> r.outcome == NothingToRegister
    ensures r.requests != [] ==>
              r.requests[0] == PutRequest(RegistrationRoute(clientId, guildId), slashCommands) &&
              r.outcome == (if putSucceeds then Registered(r.requests[0].route) else RegistrationFailed(r.requests[0].route))
  {
    if slashCommands == [] then SyncReport([], NothingToRegister)
    else
      var route := RegistrationRoute(clientId, guildId);
      SyncReport([PutRequest(route, slashCommands)], if putSucceeds then Registered(route) else RegistrationFailed(route))
  }

  /** The command sets the remote API holds, per route. */
  type RemoteCommands = map<Route, seq<CommandData>>

  /** The remote state after a registration run: a successful put replaces the whole set
      of its route; a failed put is taken to change nothing. */
  function ApplySync(remote: RemoteCommands, r: SyncReport): RemoteCommands
  {
    if r.outcome.Registered? && r.requests != [] then remote[r.requests[0].route := r.requests[0].body]
    else remote
  }

  /** A registration run leaves the chosen route holding exactly the batch, touches no
      other route, and changes nothing when the batch is empty or the put fails. */
  lemma SyncReplacesScope(remote: RemoteCommands, clientId: string, guildId: Option<string>, slashCommands: seq<CommandData>, putSucceeds: bool)
    ensures var after := ApplySync(remote, SyncCommands(clientId, guildId, slashCommands, putSucceeds));
            var route := RegistrationRoute(clientId, guildId);
            (slashCommands != [] && putSucceeds ==>
               route in after && after[route] == slashCommands &&
               forall other :: other != route ==>
                 (other in after <==> other in remote) && (other in remote ==> after[other] == remote[other])) &&
            (slashCommands == [] || !putSucceeds ==> after == remote)
  {
  }

  /** Bulk replacement is idempotent: running the same registration twice leaves the
      remote side as running it once. */
  lemma SyncIdempotent(remote: RemoteCommands, clientId: string, guildId: Option<string>, slashCommands: seq<CommandData>, putSucceeds: bool)
    ensures var r := SyncCommands(clientId, guildId, slashCommands, putSucceeds);
            ApplySync(ApplySync(remote, r), r) == ApplySync(remote, r)
  {
  }
}
