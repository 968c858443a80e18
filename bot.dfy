/** The startup order (main.js lines 18-77): a client with empty tables, then the command
    loader, then the component loader, then registration of the batch the command loader
    built. Connecting to the gateway is outside the model. */
module Bot {
  import opened Wrappers
  import opened Handlers
  import opened Loader
  import opened Config
  import opened Sync

  method Startup(settings: Settings, commandsDir: Option<seq<DirEntry<CommandModule>>>,
                 componentsDir: Option<seq<DirEntry<ComponentModule>>>, putSucceeds: bool)
    returns (client: Client, report: SyncReport)
    ensures fresh(client)
    ensures client.commands == Index(map[], Listing(commandsDir), CommandKey)
    ensures client.components == Index(map[], Listing(componentsDir), ComponentKey)
    ensures report == SyncCommands(settings.clientId, settings.guildId, Schemas(Listing(commandsDir)), putSucceeds)
    ensures commandsDir.None? ==> client.commands == map[] && report.requests == []
  {
    client := new Client();
    var slashCommands, _ := client.LoadCommands(commandsDir);
    var _ := client.LoadComponents(componentsDir);
    report := SyncCommands(settings.clientId, settings.guildId, slashCommands, putSucceeds);
  }
}
