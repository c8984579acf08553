/**
 * Slash-command routing (src/command_run/command_dispatch.rs): the top-level
 * command name picks a group, the group checks its module switch if it has
 * one, and the first option's name picks the handler.
 */
module CommandDispatch {
  import opened Wrappers
  import AppErrors
  import opened ModuleActivation

  type AppError = AppErrors.AppError

  /** What the dispatcher reads from the database: the activation record of a
      guild and the bot-wide kill-switch record, either of which can fail. */
  datatype StatusStore = StatusStore(
    guildStatus: string -> Result<ActivationStatusModule, AppError>,
    killSwitch: Result<ActivationStatusModule, AppError>)

  /** The parts of a command interaction routing looks at: the command name,
      the name of its first option (absent when it has none), the name of the
      nested subcommand (absent when there is none) and the guild (absent in
      a DM). */
  datatype Interaction = Interaction(
    name: string,
    firstOption: Option<string>,
    subcommand: Option<string>,
    guild: Option<string>)

  /** Where a command ends up: handed to a handler (named by its module), an
      error reply, or a panic on an `unwrap` of a missing option. */
  datatype Dispatch = Routed(handler: string) | Failed(error: AppError) | Panicked

  const CommandDoesNotExist := AppErrors.AppError("Command does not exist.", AppErrors.ErrorType.Option, AppErrors.ErrorResponseType.Message)

  /** The error a group replies with when its module is off. */
  function ModuleOff(message: string): AppError {
    AppErrors.AppError(message, AppErrors.ErrorType.Module, AppErrors.ErrorResponseType.Message)
  }

  /** `check_if_module_is_on`: the guild's switch AND the kill switch. The
      conjunction short-circuits, so the kill-switch record is only read (and
      its error only reported) when the guild's switch is on. */
  function CheckIfModuleIsOn(guildId: string, moduleName: string, store: StatusStore): (r: Result<bool, AppError>)
    ensures r == Ok(true) <==>
      store.guildStatus(guildId).Ok? && store.killSwitch.Ok?
      && CheckActivationStatus(moduleName, store.guildStatus(guildId).value)
      && CheckActivationStatus(moduleName, store.killSwitch.value)
    ensures store.guildStatus(guildId).Err? ==> r == Err(store.guildStatus(guildId).error)
    ensures store.guildStatus(guildId).Ok? && !CheckActivationStatus(moduleName, store.guildStatus(guildId).value)
      ==> r == Ok(false)
    ensures store.guildStatus(guildId).Ok? && CheckActivationStatus(moduleName, store.guildStatus(guildId).value) && store.killSwitch.Err?
      ==> r == Err(store.killSwitch.error)
  {
    match store.guildStatus(guildId)
    case Err(e) => Err(e)
    case Ok(row) =>
      var state := CheckActivationStatus(moduleName, row);
      if !state then Ok(false)
      else
        match store.killSwitch
        case Err(e) => Err(e)
        case Ok(kill) => Ok(CheckActivationStatus(moduleName, kill))
  }

  /** Runs `next` only when `moduleName` is on for the interaction's guild
      (guild "0" outside a guild); otherwise replies with `offMessage`. */
  function Gate(i: Interaction, moduleName: string, offMessage: string, store: StatusStore, next: Dispatch): Dispatch {
    match CheckIfModuleIsOn(i.guild.GetOr("0"), moduleName, store)
    case Err(e) => Failed(e)
    case Ok(on) => if on then next else Failed(ModuleOff(offMessage))
  }

  /** Looks a subcommand name up in a group's table. */
  function Route(table: map<string, string>, name: string): (d: Dispatch)
    ensures d.Routed? <==> name in table
    ensures d.Routed? ==> d.handler == table[name]
    ensures !d.Routed? ==> d == Failed(CommandDoesNotExist)
  {
    if name in table then Routed(table[name]) else Failed(CommandDoesNotExist)
  }

  const GeneralAdminRoutes := map["lang" := "lang::run", "module" := "module::run"]
  const AnilistAdminRoutes := map["add_anime_activity" := "add_activity::run", "delete_activity" := "delete_activity::run"]
  const AiRoutes := map["image" := "image::run", "transcript" := "transcript::run",
                        "translation" := "translation::run", "question" := "question::run"]
  const AnilistServerRoutes := map["list_user" := "list_register_user::run", "list_activity" := "list_all_activity::run"]
  const AnilistUserRoutes := map[
    "anime" := "anime::run", "ln" := "ln::run", "manga" := "manga::run", "user" := "user::run",
    "character" := "character::run", "waifu" := "waifu::run", "compare" := "compare::run",
    "random" := "random::run", "register" := "register::run", "staff" := "staff::run",
    "studio" := "studio::run", "search" := "search::run", "seiyuu" := "seiyuu::run",
    "level" := "level::run"]
  const AnimeRoutes := map["random_image" := "random_image::run"]
  const AnimeNsfwRoutes := map["random_nsfw_image" := "random_nsfw_image::run"]
  const BotRoutes := map["credit" := "credit::run", "info" := "info::run", "ping" := "ping::run"]
  const ServerRoutes := map["guild" := "guild::run", "guild_image" := "generate_image_pfp_server::run",
                            "guild_image_g" := "generate_image_pfp_server_global::run"]
  const SteamRoutes := map["game" := "steam_game_info::run"]
  const UserRoutes := map["avatar" := "avatar::run", "banner" := "banner::run", "profile" := "profile::run"]

  /** The top-level command names the dispatcher knows. */
  const TopLevelCommands: set<string> := {"admin", "ai", "anilist_server", "anilist_user", "anime",
                                          "anime_nsfw", "bot", "server", "steam", "user"}

  /** `admin`: `general` is not gated, `anilist` needs ANIME; both read the
      nested subcommand with `unwrap`. */
  function Admin(i: Interaction, commandName: string, store: StatusStore): Dispatch {
    match commandName
    case "general" =>
      if i.subcommand.None? then Panicked else Route(GeneralAdminRoutes, i.subcommand.value)
    case "anilist" =>
      Gate(i, "ANIME", "Anime module is off.", store,
           if i.subcommand.None? then Panicked else Route(AnilistAdminRoutes, i.subcommand.value))
    case _ => Failed(CommandDoesNotExist)
  }

  /** `command_dispatching`, with each group inlined. The first option's name
      is read with `unwrap` before the command name is matched. */
  function CommandDispatching(i: Interaction, store: StatusStore): Dispatch {
    if i.firstOption.None? then Panicked
    else
      var commandName := i.firstOption.value;
      match i.name
      case "admin" => Admin(i, commandName, store)
      case "ai" => Gate(i, "AI", "AI module is off.", store, Route(AiRoutes, commandName))
      case "anilist_server" => Gate(i, "ANIME", "Anilist module is off.", store, Route(AnilistServerRoutes, commandName))
      case "anilist_user" => Gate(i, "ANIME", "Anilist module is off.", store, Route(AnilistUserRoutes, commandName))
      case "anime" => Gate(i, "ANIME", "Anime module is off.", store, Route(AnimeRoutes, commandName))
      case "anime_nsfw" => Gate(i, "ANIME", "Anime module is off.", store, Route(AnimeNsfwRoutes, commandName))
      case "bot" => Route(BotRoutes, commandName)
      case "server" => Route(ServerRoutes, commandName)
      case "steam" => Gate(i, "GAME", "Game module is off.", store, Route(SteamRoutes, commandName))
      case "user" => Route(UserRoutes, commandName)
      case _ => Failed(CommandDoesNotExist)
  }

  // ------------------------------------------------------------------ lemmas

  /** The module a command needs, as an independent table: none for `bot`,
      `server`, `user` and `admin general`. */
  function RequiredModule(name: string, commandName: string): Option<string> {
    if name == "ai" then Some("AI")
    else if name == "steam" then Some("GAME")
    else if name in {"anilist_server", "anilist_user", "anime", "anime_nsfw"} then Some("ANIME")
    else if name == "admin" && commandName == "anilist" then Some("ANIME")
    else None
  }

  /** The reply of a command whose module is off. */
  function OffMessage(name: string): string {
    if name == "ai" then "AI module is off."
    else if name == "steam" then "Game module is off."
    else if name in {"anilist_server", "anilist_user"} then "Anilist module is off."
    else "Anime module is off."
  }

  /** A command whose module is off is refused with its module error, whatever
      subcommand it names: the gate runs before the subcommand is matched. */
  lemma {:induction false} GateComesFirst(i: Interaction, store: StatusStore)
    requires i.firstOption.Some?
    requires RequiredModule(i.name, i.firstOption.value).Some?
    requires CheckIfModuleIsOn(i.guild.GetOr("0"), RequiredModule(i.name, i.firstOption.value).value, store) == Ok(false)
    ensures CommandDispatching(i, store) == Failed(ModuleOff(OffMessage(i.name)))
  {
  }

  /** A command only reaches a handler when the module it needs is on in
      both the guild record and the kill switch. */
  lemma {:induction false} RoutedImpliesModuleOn(i: Interaction, store: StatusStore)
    requires CommandDispatching(i, store).Routed?
    ensures var m := RequiredModule(i.name, i.firstOption.value);
      m.Some? ==> CheckIfModuleIsOn(i.guild.GetOr("0"), m.value, store) == Ok(true)
  {
    var c := i.firstOption.value;
    if i.name == "ai" {
      GateRoutedMeansOn(i, "AI", "AI module is off.", store, Route(AiRoutes, c));
    } else if i.name == "steam" {
      GateRoutedMeansOn(i, "GAME", "Game module is off.", store, Route(SteamRoutes, c));
    } else if i.name == "anilist_server" {
      GateRoutedMeansOn(i, "ANIME", "Anilist module is off.", store, Route(AnilistServerRoutes, c));
    } else if i.name == "anilist_user" {
      GateRoutedMeansOn(i, "ANIME", "Anilist module is off.", store, Route(AnilistUserRoutes, c));
    } else if i.name == "anime" {
      GateRoutedMeansOn(i, "ANIME", "Anime module is off.", store, Route(AnimeRoutes, c));
    } else if i.name == "anime_nsfw" {
      GateRoutedMeansOn(i, "ANIME", "Anime module is off.", store, Route(AnimeNsfwRoutes, c));
    } else if i.name == "admin" && c == "anilist" {
      GateRoutedMeansOn(i, "ANIME", "Anime module is off.", store,
                        if i.subcommand.None? then Panicked else Route(AnilistAdminRoutes, i.subcommand.value));
    }
  }

  /** A gate lets a command through only when its module is on. */
  lemma GateRoutedMeansOn(i: Interaction, moduleName: string, offMessage: string, store: StatusStore, next: Dispatch)
    requires Gate(i, moduleName, offMessage, store, next).Routed?
    ensures CheckIfModuleIsOn(i.guild.GetOr("0"), moduleName, store) == Ok(true)
    ensures next == Gate(i, moduleName, offMessage, store, next)
  {
  }

  /** Commands without a module requirement route the same way whatever the
      activation records say. */
  lemma {:induction false} UngatedIgnoresStore(i: Interaction, s1: StatusStore, s2: StatusStore)
    requires i.firstOption.Some? ==> RequiredModule(i.name, i.firstOption.value).None?
    ensures CommandDispatching(i, s1) == CommandDispatching(i, s2)
  {
  }

  /** With its module on, a command names its handler from its own table, and
      an unknown name gets "Command does not exist.". */
  lemma {:induction false} GroupTables(i: Interaction, store: StatusStore)
    requires i.firstOption.Some? && i.name != "admin"
    requires var m := RequiredModule(i.name, i.firstOption.value);
      m.Some? ==> CheckIfModuleIsOn(i.guild.GetOr("0"), m.value, store) == Ok(true)
    ensures i.name !in TopLevelCommands ==> CommandDispatching(i, store) == Failed(CommandDoesNotExist)
    ensures i.name == "ai" ==> CommandDispatching(i, store) == Route(AiRoutes, i.firstOption.value)
    ensures i.name == "anilist_server" ==> CommandDispatching(i, store) == Route(AnilistServerRoutes, i.firstOption.value)
    ensures i.name == "anilist_user" ==> CommandDispatching(i, store) == Route(AnilistUserRoutes, i.firstOption.value)
    ensures i.name == "anime" ==> CommandDispatching(i, store) == Route(AnimeRoutes, i.firstOption.value)
    ensures i.name == "anime_nsfw" ==> CommandDispatching(i, store) == Route(AnimeNsfwRoutes, i.firstOption.value)
    ensures i.name == "steam" ==> CommandDispatching(i, store) == Route(SteamRoutes, i.firstOption.value)
    ensures i.name == "bot" ==> CommandDispatching(i, store) == Route(BotRoutes, i.firstOption.value)
    ensures i.name == "server" ==> CommandDispatching(i, store) == Route(ServerRoutes, i.firstOption.value)
    ensures i.name == "user" ==> CommandDispatching(i, store) == Route(UserRoutes, i.firstOption.value)
  {
  }

  /** The subcommand table of each top-level group other than `admin`. */
  function GroupRoutes(name: string): map<string, string> {
    match name
    case "ai" => AiRoutes
    case "anilist_server" => AnilistServerRoutes
    case "anilist_user" => AnilistUserRoutes
    case "anime" => AnimeRoutes
    case "anime_nsfw" => AnimeNsfwRoutes
    case "bot" => BotRoutes
    case "server" => ServerRoutes
    case "steam" => SteamRoutes
    case "user" => UserRoutes
    case _ => map[]
  }

  /** With its module on, a grouped command reaches a handler exactly when its
      subcommand is in the group's table, and that entry's handler; any other
      subcommand is answered "Command does not exist.". */
  lemma {:induction false} SubcommandRouting(i: Interaction, store: StatusStore)
    requires i.firstOption.Some? && i.name in TopLevelCommands && i.name != "admin"
    requires var m := RequiredModule(i.name, i.firstOption.value);
      m.Some? ==> CheckIfModuleIsOn(i.guild.GetOr("0"), m.value, store) == Ok(true)
    ensures var d := CommandDispatching(i, store);
      (d.Routed? <==> i.firstOption.value in GroupRoutes(i.name))
      && (d.Routed? ==> d.handler == GroupRoutes(i.name)[i.firstOption.value])
      && (!d.Routed? ==> d == Failed(CommandDoesNotExist))
  {
    GroupTables(i, store);
    var d := CommandDispatching(i, store);
    assert d == Route(GroupRoutes(i.name), i.firstOption.value) by {
      match i.name
      case "ai" => assert GroupRoutes(i.name) == AiRoutes;
      case "anilist_server" => assert GroupRoutes(i.name) == AnilistServerRoutes;
      case "anilist_user" => assert GroupRoutes(i.name) == AnilistUserRoutes;
      case "anime" => assert GroupRoutes(i.name) == AnimeRoutes;
      case "anime_nsfw" => assert GroupRoutes(i.name) == AnimeNsfwRoutes;
      case "bot" => assert GroupRoutes(i.name) == BotRoutes;
      case "server" => assert GroupRoutes(i.name) == ServerRoutes;
      case "steam" => assert GroupRoutes(i.name) == SteamRoutes;
      case "user" => assert GroupRoutes(i.name) == UserRoutes;
    }
  }

  /** `admin anilist` needs ANIME, `admin general` needs nothing, and both
      panic on a missing nested subcommand only after the gate. */
  lemma {:induction false} AdminGroup(i: Interaction, store: StatusStore)
    requires i.name == "admin" && i.firstOption.Some?
    ensures i.firstOption.value == "general" ==>
      CommandDispatching(i, store) == (if i.subcommand.None? then Panicked else Route(GeneralAdminRoutes, i.subcommand.value))
    ensures i.firstOption.value == "anilist" && CheckIfModuleIsOn(i.guild.GetOr("0"), "ANIME", store) == Ok(false) ==>
      CommandDispatching(i, store) == Failed(ModuleOff("Anime module is off."))
    ensures i.firstOption.value !in {"general", "anilist"} ==> CommandDispatching(i, store) == Failed(CommandDoesNotExist)
  {
  }

  /** Outside a guild the dispatcher behaves as in guild "0". */
  lemma {:induction false} MissingGuildIsZero(i: Interaction, store: StatusStore)
    requires i.guild.None?
    ensures CommandDispatching(i, store) == CommandDispatching(i.(guild := Some("0")), store)
  {
    var j := i.(guild := Some("0"));
    assert i.guild.GetOr("0") == j.guild.GetOr("0");
  }

  /** A module is on only when it is a known module name: the lookup is off
      for anything else, so the conjunction is too. */
  lemma {:induction false} UnknownModuleIsOff(guildId: string, moduleName: string, store: StatusStore)
    requires moduleName !in KnownModules
    ensures CheckIfModuleIsOn(guildId, moduleName, store) != Ok(true)
  {
  }
}
