/**
 * Per-guild module switches (src/command/run/admin/module.rs): the lookup
 * `check_activation_status` and the `/admin general module` command that sets
 * one switch and writes the whole record back.
 */
module ModuleActivation {
  import opened Wrappers
  import AppErrors

  /** A row of the module activation table; every column may be NULL. */
  datatype ActivationStatusModule = ActivationStatusModule(
    id: Option<string>,
    aiModule: Option<bool>,
    anilistModule: Option<bool>,
    gameModule: Option<bool>,
    newMember: Option<bool>,
    anime: Option<bool>,
    vn: Option<bool>)

  /** The row a guild without a stored record reads as. */
  const EmptyRow := ActivationStatusModule(None, None, None, None, None, None, None)

  /** The module names both the lookup and the command recognise. */
  const KnownModules: set<string> := {"ANILIST", "AI", "GAME", "NEW_MEMBER", "ANIME", "VN"}

  /** The column a known module name designates. */
  function Flag(row: ActivationStatusModule, name: string): Option<bool>
    requires name in KnownModules
  {
    match name
    case "ANILIST" => row.anilistModule
    case "AI" => row.aiModule
    case "GAME" => row.gameModule
    case "NEW_MEMBER" => row.newMember
    case "ANIME" => row.anime
    case "VN" => row.vn
  }

  /** `check_activation_status`: the stored switch, on when NULL; off for any
      name that is not a module. */
  function CheckActivationStatus(name: string, row: ActivationStatusModule): (on: bool)
    ensures name !in KnownModules ==> !on
    ensures name in KnownModules ==> (on <==> Flag(row, name) != Some(false))
  {
    match name
    case "ANILIST" => row.anilistModule.GetOr(true)
    case "AI" => row.aiModule.GetOr(true)
    case "GAME" => row.gameModule.GetOr(true)
    case "NEW_MEMBER" => row.newMember.GetOr(true)
    case "ANIME" => row.anime.GetOr(true)
    case "VN" => row.vn.GetOr(true)
    case _ => false
  }

  /** The value `run` assumes for a NULL column: on, except NEW_MEMBER. */
  function RunDefault(name: string): bool {
    name != "NEW_MEMBER"
  }

  /** The error `run` reports for a module name it does not know. */
  const UnknownModuleError := AppErrors.AppError("This module does not exist.", AppErrors.ErrorType.Option, AppErrors.ErrorResponseType.Message)

  /** Every known column other than `name` of `written` holds the stored value
      of `row`, or `run`'s default when that is NULL. */
  predicate KeepsOtherColumns(row: ActivationStatusModule, written: ActivationStatusModule, name: string) {
    forall m :: m in KnownModules && m != name ==> Flag(written, m) == Some(Flag(row, m).GetOr(RunDefault(m)))
  }

  /** A record whose columns other than `name` are the stored values or `run`'s defaults. */
  lemma OtherColumnsKept(row: ActivationStatusModule, written: ActivationStatusModule, name: string)
    requires name != "AI" ==> written.aiModule == Some(row.aiModule.GetOr(true))
    requires name != "ANILIST" ==> written.anilistModule == Some(row.anilistModule.GetOr(true))
    requires name != "GAME" ==> written.gameModule == Some(row.gameModule.GetOr(true))
    requires name != "NEW_MEMBER" ==> written.newMember == Some(row.newMember.GetOr(false))
    requires name != "ANIME" ==> written.anime == Some(row.anime.GetOr(true))
    requires name != "VN" ==> written.vn == Some(row.vn.GetOr(true))
    ensures KeepsOtherColumns(row, written, name)
  {
  }

  /** The six module names are pairwise different. */
  lemma ModuleNamesDistinct()
    ensures |"ANILIST"| == 7 && |"AI"| == 2 && |"GAME"| == 4 && |"NEW_MEMBER"| == 10 && |"ANIME"| == 5 && |"VN"| == 2
    ensures "AI" != "VN"
  {
    assert "AI"[0] != "VN"[0];
  }

  /**
   * The record `run` writes for `guildId` when `name` is switched to `state`,
   * starting from the stored `row`: `name`'s column becomes `state`, every
   * other column keeps its stored value or takes `run`'s default, and no
   * column is NULL. An unknown name is an error and nothing is built.
   */
  method ComputeModuleStatus(guildId: string, name: string, state: bool, row: ActivationStatusModule)
    returns (r: Result<ActivationStatusModule, AppErrors.AppError>)
    ensures r.Err? <==> name !in KnownModules
    ensures r.Err? ==> r.error == UnknownModuleError
    ensures r.Ok? ==> r.value.id == Some(guildId)
    ensures r.Ok? ==> Flag(r.value, name) == Some(state)
    ensures r.Ok? ==> KeepsOtherColumns(row, r.value, name)
  {
    ModuleNamesDistinct();
    var aiValue := row.aiModule.GetOr(true);
    var anilistValue := row.anilistModule.GetOr(true);
    var gameValue := row.gameModule.GetOr(true);
    var newMemberValue := row.newMember.GetOr(false);
    var animeValue := row.anime.GetOr(true);
    var vnValue := row.vn.GetOr(true);
    match name {
      case "ANILIST" => anilistValue := state;
      case "AI" => aiValue := state;
      case "GAME" => gameValue := state;
      case "NEW_MEMBER" => newMemberValue := state;
      case "ANIME" => animeValue := state;
      case "VN" => vnValue := state;
      case _ =>
        return Err(UnknownModuleError);
    }
    var written := ActivationStatusModule(Some(guildId), Some(aiValue), Some(anilistValue), Some(gameValue),
                                          Some(newMemberValue), Some(animeValue), Some(vnValue));
    OtherColumnsKept(row, written, name);
    r := Ok(written);
  }

  /** After a successful switch the lookup reports exactly the requested state. */
  lemma SwitchIsObserved(written: ActivationStatusModule, name: string, state: bool)
    requires name in KnownModules
    requires Flag(written, name) == Some(state)
    ensures CheckActivationStatus(name, written) == state
  {
  }

  /** A switch leaves what the lookup says about every other module unchanged,
      unless that module is NEW_MEMBER with a NULL column: there the command's
      default (off) and the lookup's default (on) disagree. */
  lemma OtherModulesObservedUnchanged(row: ActivationStatusModule, written: ActivationStatusModule, name: string, other: string)
    requires other in KnownModules && other != name
    requires Flag(written, other) == Some(Flag(row, other).GetOr(RunDefault(other)))
    ensures CheckActivationStatus(other, written) == CheckActivationStatus(other, row)
      <==> !(other == "NEW_MEMBER" && row.newMember.None?)
  {
  }

  /** The disagreement made concrete: on a guild with no stored record the
      lookup says NEW_MEMBER is on, and switching any other module writes it
      off. */
  lemma {:induction false} NewMemberFlipsOnUnrelatedSwitch()
    ensures CheckActivationStatus("NEW_MEMBER", EmptyRow)
    ensures !CheckActivationStatus("NEW_MEMBER",
      ActivationStatusModule(Some("42"), Some(false), Some(true), Some(true), Some(RunDefault("NEW_MEMBER")), Some(true), Some(true)))
  {
  }

  /** The module activation table: one record per guild id. */
  class ModuleStatusTable {
    var rows: map<string, ActivationStatusModule>

    constructor ()
      ensures rows == map[]
    {
      rows := map[];
    }

    /** The record stored for a guild; a guild without one reads as all NULL. */
    function Stored(guildId: string): ActivationStatusModule
      reads this
    {
      if guildId in rows then rows[guildId] else EmptyRow
    }

    /**
     * `run`: `guild` is the interaction's guild (absent in a DM), `name` and
     * `state` the two options. The outcome carries the state that the reply
     * describes. Every error leaves the table untouched; a success replaces
     * exactly the guild's record.
     */
    method Run(guild: Option<string>, name: Option<string>, state: Option<bool>) returns (r: Result<bool, AppErrors.AppError>)
      modifies this
      ensures name.None? ==> r == Err(AppErrors.AppError("There is no option 1", AppErrors.ErrorType.Option, AppErrors.ErrorResponseType.Followup))
      ensures name.Some? && state.None? ==> r == Err(AppErrors.AppError("There is no option 2", AppErrors.ErrorType.Option, AppErrors.ErrorResponseType.Followup))
      ensures name.Some? && state.Some? && name.value !in KnownModules ==> r == Err(UnknownModuleError)
      ensures r.Err? ==> rows == old(rows)
      ensures r.Ok? <==> name.Some? && state.Some? && name.value in KnownModules
      ensures r.Ok? ==> r.value == state.value
      ensures r.Ok? ==> var gid := guild.GetOr("0");
        gid in rows && rows == old(rows)[gid := rows[gid]]
        && rows[gid].id == Some(gid)
        && CheckActivationStatus(name.value, rows[gid]) == state.value
        && forall m :: m in KnownModules && m != name.value ==>
             Flag(rows[gid], m) == Some(Flag(old(Stored(gid)), m).GetOr(RunDefault(m)))
    {
      var guildId := guild.GetOr("0");
      if name.None? {
        return Err(AppErrors.AppError("There is no option 1", AppErrors.ErrorType.Option, AppErrors.ErrorResponseType.Followup));
      }
      if state.None? {
        return Err(AppErrors.AppError("There is no option 2", AppErrors.ErrorType.Option, AppErrors.ErrorResponseType.Followup));
      }
      var row := Stored(guildId);
      var status := ComputeModuleStatus(guildId, name.value, state.value, row);
      if status.Err? {
        return Err(status.error);
      }
      rows := rows[guildId := status.value];
      SwitchIsObserved(status.value, name.value, state.value);
      r := Ok(state.value);
    }
  }
}
