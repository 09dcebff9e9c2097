/**
 * The `lifestyle` handler class: two configurable roles (vegan and not
 * vegan), the administrator commands that set them, and the two buttons a
 * member presses to hold exactly one of them.
 */
module Lifestyle {
  import opened Wrappers
  import opened Components
  import Meta
  import Dispatch

  // ---------------------------------------------------------------------------
  // Configuration

  datatype SetRoleOutcome = Refused | NoSuchRole | Saved

  /** The two role ids of a `Server` row. */
  class ServerSettings {
    var veganRoleId: Option<string>
    var notVeganRoleId: Option<string>

    constructor ()
      ensures veganRoleId == None && notVeganRoleId == None
    {
      veganRoleId := None;
      notVeganRoleId := None;
    }

    /** `onSetVeganRole`: administrators only, and only with a role; writes `veganRoleId` alone. */
    method OnSetVeganRole(isAdmin: bool, role: Option<string>) returns (outcome: SetRoleOutcome)
      modifies this
      ensures outcome == SetRoleGate(isAdmin, role)
      ensures outcome != Saved ==> veganRoleId == old(veganRoleId)
      ensures outcome == Saved ==> veganRoleId == role
      ensures notVeganRoleId == old(notVeganRoleId)
    {
      if !isAdmin {
        return Refused;
      }
      if !Truthy(role) {
        return NoSuchRole;
      }
      veganRoleId := role;
      outcome := Saved;
    }

    /** `onSetNonVeganRole`: administrators only, and only with a role; writes `notVeganRoleId` alone. */
    method OnSetNonVeganRole(isAdmin: bool, role: Option<string>) returns (outcome: SetRoleOutcome)
      modifies this
      ensures outcome == SetRoleGate(isAdmin, role)
      ensures outcome != Saved ==> notVeganRoleId == old(notVeganRoleId)
      ensures outcome == Saved ==> notVeganRoleId == role
      ensures veganRoleId == old(veganRoleId)
    {
      if !isAdmin {
        return Refused;
      }
      if !Truthy(role) {
        return NoSuchRole;
      }
      notVeganRoleId := role;
      outcome := Saved;
    }
  }

  /** The guards of the two set-role commands: the permission first, then the role. */
  function SetRoleGate(isAdmin: bool, role: Option<string>): (outcome: SetRoleOutcome)
    ensures outcome == Saved <==> isAdmin && Truthy(role)
    ensures outcome == Refused <==> !isAdmin
  {
    if !isAdmin then Refused else if !Truthy(role) then NoSuchRole else Saved
  }

  /**
   * One entry of `roles(guild)`: the configured id, when it is set and the
   * guild has that role (`guild.roles.fetch` yields nothing otherwise).
   */
  function ResolveRole(configured: Option<string>, guildRoles: set<string>): (role: Option<string>)
    ensures role.Some? <==> Truthy(configured) && configured.value in guildRoles
    ensures role.Some? ==> role == configured
  {
    if Truthy(configured) && configured.value in guildRoles then configured else None
  }

  // ---------------------------------------------------------------------------
  // The toggle

  datatype ToggleOutcome = Unconfigured | RulesNotAccepted | NoPronouns | RoleSet(role: string)

  /** The guards of `toggleLifestyleRole`, in order: both roles, accepted rules, pronouns. */
  function ToggleGate(on: Option<string>, off: Option<string>, rulesAccepted: bool, pronouns: Option<string>): (outcome: ToggleOutcome)
    ensures outcome == Unconfigured <==> on.None? || off.None?
    ensures outcome == RulesNotAccepted <==> on.Some? && off.Some? && !rulesAccepted
    ensures outcome == NoPronouns <==> on.Some? && off.Some? && rulesAccepted && !Truthy(pronouns)
    ensures outcome.RoleSet? ==> on.Some? && outcome.role == on.value
  {
    if on.None? || off.None? then Unconfigured
    else if !rulesAccepted then RulesNotAccepted
    else if !Truthy(pronouns) then NoPronouns
    else RoleSet(on.value)
  }

  /**
   * The member's roles after the toggle. Both membership tests read the role
   * cache as fetched before either change, so `off` is removed when it was
   * held and `on` is added when it was not.
   */
  function Toggled(roles: set<string>, on: string, off: string): set<string>
  {
    var afterRemove := if off in roles then roles - {off} else roles;
    if on !in roles then afterRemove + {on} else afterRemove
  }

  /** With two different roles the member ends up holding `on` and not `off`, and no other role changes. */
  lemma ToggledHoldsExactlyOn(roles: set<string>, on: string, off: string)
    requires on != off
    ensures on in Toggled(roles, on, off) && off !in Toggled(roles, on, off)
    ensures forall r :: r != on && r != off ==> (r in Toggled(roles, on, off) <==> r in roles)
  {
  }

  /** Pressing the same button again changes nothing. */
  lemma ToggleIdempotent(roles: set<string>, on: string, off: string)
    requires on != off
    ensures Toggled(Toggled(roles, on, off), on, off) == Toggled(roles, on, off)
  {
    ToggledHoldsExactlyOn(roles, on, off);
  }

  /** The last button pressed decides: pressing one and then the other is the same as pressing the other. */
  lemma LastPressWins(roles: set<string>, a: string, b: string)
    requires a != b
    ensures Toggled(Toggled(roles, a, b), b, a) == Toggled(roles, b, a)
  {
    ToggledHoldsExactlyOn(roles, a, b);
    ToggledHoldsExactlyOn(roles, b, a);
    ToggledHoldsExactlyOn(Toggled(roles, a, b), b, a);
  }

  /**
   * When both ids name the same role, the stale cache makes the toggle drop
   * it: the removal happens and the addition is skipped.
   */
  lemma SameRoleIsDropped(roles: set<string>, r: string)
    requires r in roles
    ensures r !in Toggled(roles, r, r)
  {
  }

  /** A member's role set. */
  class Member {
    var roles: set<string>

    constructor (roles: set<string>)
      ensures this.roles == roles
    {
      this.roles := roles;
    }

    /** `toggleLifestyleRole`: only a member who accepted the rules and set pronouns, and only with both roles present. */
    method ToggleLifestyleRole(on: Option<string>, off: Option<string>, rulesAccepted: bool, pronouns: Option<string>)
        returns (outcome: ToggleOutcome)
      modifies this
      ensures outcome == ToggleGate(on, off, rulesAccepted, pronouns)
      ensures !outcome.RoleSet? ==> roles == old(roles)
      ensures outcome.RoleSet? ==> roles == Toggled(old(roles), on.value, off.value)
    {
      if on.None? || off.None? {
        return Unconfigured;
      }
      if !rulesAccepted {
        return RulesNotAccepted;
      }
      if !Truthy(pronouns) {
        return NoPronouns;
      }
      var cache := roles;
      if off.value in cache {
        roles := roles - {off.value};
      }
      if on.value !in cache {
        roles := roles + {on.value};
      }
      outcome := RoleSet(on.value);
    }
  }

  // ---------------------------------------------------------------------------
  // The buttons

  /**
   * `onLifestyleVegan` takes `[on, off]` from `roles()`, `onLifestyleNotVegan`
   * takes `[off, on]`: the two buttons use the same roles, swapped.
   */
  function ButtonRoles(vegan: bool, veganRole: Option<string>, notVeganRole: Option<string>): (pair: (Option<string>, Option<string>))
    ensures vegan ==> pair.0 == veganRole
    ensures !vegan ==> pair.0 == notVeganRole
  {
    if vegan then (veganRole, notVeganRole) else (notVeganRole, veganRole)
  }

  /** The "no" button's pair is the "yes" button's pair swapped. */
  lemma ButtonRolesSwapped(veganRole: Option<string>, notVeganRole: Option<string>)
    ensures ButtonRoles(false, veganRole, notVeganRole) == (ButtonRoles(true, veganRole, notVeganRole).1, ButtonRoles(true, veganRole, notVeganRole).0)
  {
  }

  /** A button press from start to end: the server's roles are resolved, then the toggle runs. */
  method OnLifestyleButton(settings: ServerSettings, member: Member, vegan: bool, guildRoles: set<string>,
                           rulesAccepted: bool, pronouns: Option<string>) returns (outcome: ToggleOutcome)
    modifies member
    ensures var pair := ButtonRoles(vegan, ResolveRole(settings.veganRoleId, guildRoles), ResolveRole(settings.notVeganRoleId, guildRoles));
      outcome == ToggleGate(pair.0, pair.1, rulesAccepted, pronouns) &&
      (outcome.RoleSet? ==> member.roles == Toggled(old(member.roles), pair.0.value, pair.1.value)) &&
      (!outcome.RoleSet? ==> member.roles == old(member.roles))
  {
    var veganRole := ResolveRole(settings.veganRoleId, guildRoles);
    var notVeganRole := ResolveRole(settings.notVeganRoleId, guildRoles);
    var pair := ButtonRoles(vegan, veganRole, notVeganRole);
    outcome := member.ToggleLifestyleRole(pair.0, pair.1, rulesAccepted, pronouns);
  }

  /**
   * With two different roles configured, the vegan button leaves the member
   * vegan and not "not vegan", and the other button the reverse.
   */
  lemma ButtonsAreComplementary(roles: set<string>, vegan: bool, veganRole: string, notVeganRole: string)
    requires veganRole != notVeganRole
    ensures var pair := ButtonRoles(vegan, Some(veganRole), Some(notVeganRole));
      var after := Toggled(roles, pair.0.value, pair.1.value);
      (veganRole in after <==> vegan) && (notVeganRole in after <==> !vegan)
  {
    ToggledHoldsExactlyOn(roles, veganRole, notVeganRole);
    ToggledHoldsExactlyOn(roles, notVeganRole, veganRole);
  }

  /** `onLifestyleCommand`: administrators get the question with the "no" and "yes" buttons; others get nothing. */
  function LifestylePrompt(isAdmin: bool): (buttons: Option<seq<Button>>)
    ensures buttons.Some? <==> isAdmin
    ensures buttons.Some? ==> |buttons.value| == 2
  {
    if !isAdmin then None
    else Some([
      Button("Nein", Danger, "lifestyle:not-vegan", false),
      Button("Ja", Success, "lifestyle:vegan", false)
    ])
  }

  /** The key `@OnButton(action)` registers in the `lifestyle` class. */
  lemma LifestyleKey(action: string)
    requires action != "" && action[0] != '-'
    ensures Meta.PrefixedId(Some("lifestyle"), Some(action)) == "lifestyle:" + action
  {
    assert !Meta.IsEscaped(Some(action));
  }

  /**
   * The prompt's buttons carry the keys of `@OnButton("vegan")` and
   * `@OnButton("not-vegan")`, and neither id matches the other key, so each
   * button reaches exactly its own handler.
   */
  lemma PromptButtonsRoute()
    ensures LifestylePrompt(true).value[1].customId == Meta.PrefixedId(Some("lifestyle"), Some("vegan"))
    ensures LifestylePrompt(true).value[0].customId == Meta.PrefixedId(Some("lifestyle"), Some("not-vegan"))
    ensures !Meta.IsSegmentPrefix(LifestylePrompt(true).value[1].customId, LifestylePrompt(true).value[0].customId)
    ensures !Meta.IsSegmentPrefix(LifestylePrompt(true).value[0].customId, LifestylePrompt(true).value[1].customId)
  {
    var yes: string, no: string := "lifestyle:vegan", "lifestyle:not-vegan";
    assert LifestylePrompt(true).value[1].customId == yes && LifestylePrompt(true).value[0].customId == no;
    PromptKeys();
    assert !Meta.IsSegmentPrefix(yes, no) by {
      assert yes[10] == 'v' && no[10] == 'n';
      Dispatch.DifferAt(yes, no, 10);
    }
    assert !Meta.IsSegmentPrefix(no, yes) by {
      assert yes[10] == 'v' && no[10] == 'n';
      Dispatch.DifferAt(no, yes, 10);
    }
  }

  /** The keys of the two button handlers, spelled out. */
  lemma PromptKeys()
    ensures Meta.PrefixedId(Some("lifestyle"), Some("vegan")) == "lifestyle:vegan"
    ensures Meta.PrefixedId(Some("lifestyle"), Some("not-vegan")) == "lifestyle:not-vegan"
  {
    assert "lifestyle:" + "vegan" == "lifestyle:vegan";
    assert "lifestyle:" + "not-vegan" == "lifestyle:not-vegan";
    LifestyleKey("vegan");
    LifestyleKey("not-vegan");
  }
}
