/**
 * `PlayerInfo` of lib/client_interfacer.py: the player's identity and the
 * stats the client reports, each unknown until a line about it arrives.
 * The nineteen stat attributes (`hp` .. `cha`) are kept as one map from
 * `Stat` to value; a stat that is absent from the map is Python's `None`.
 */
module Player {
  import opened Wrappers
  import opened Strings

  datatype Stat = Hp | MaxHp | Sp | MaxSp | Grace | MaxGrace | Food
                | Wc | Ac | Dam | Speed | WeaponSp
                | Str | Con | Dex | Int | Wis | Pow | Cha

  /** The name the client uses for a stat in "watch stats <name> <value>". */
  function StatName(s: Stat): string {
    match s
    case Hp => "hp"
    case MaxHp => "maxhp"
    case Sp => "sp"
    case MaxSp => "maxsp"
    case Grace => "grace"
    case MaxGrace => "maxgrace"
    case Food => "food"
    case Wc => "wc"
    case Ac => "ac"
    case Dam => "dam"
    case Speed => "speed"
    case WeaponSp => "weapon_sp"
    case Str => "str"
    case Con => "con"
    case Dex => "dex"
    case Int => "int"
    case Wis => "wis"
    case Pow => "pow"
    case Cha => "cha"
  }

  /**
   * The chain of comparisons in `_handleWatch`: the stat a name stands for,
   * or `None` for the names it deliberately ignores.
   */
  function StatNamed(name: string): (r: Option<Stat>)
    ensures r.Some? ==> StatName(r.value) == name
  {
    if name == "hp" then Some(Hp)
    else if name == "maxhp" then Some(MaxHp)
    else if name == "sp" then Some(Sp)
    else if name == "maxsp" then Some(MaxSp)
    else if name == "grace" then Some(Grace)
    else if name == "maxgrace" then Some(MaxGrace)
    else if name == "food" then Some(Food)
    else if name == "wc" then Some(Wc)
    else if name == "ac" then Some(Ac)
    else if name == "dam" then Some(Dam)
    else if name == "speed" then Some(Speed)
    else if name == "weapon_sp" then Some(WeaponSp)
    else if name == "str" then Some(Str)
    else if name == "con" then Some(Con)
    else if name == "dex" then Some(Dex)
    else if name == "int" then Some(Int)
    else if name == "wis" then Some(Wis)
    else if name == "pow" then Some(Pow)
    else if name == "cha" then Some(Cha)
    else None
  }

  /** Every stat is recognised by its own name. */
  lemma StatNamedOfName(s: Stat)
    ensures StatNamed(StatName(s)) == Some(s)
    ensures ' ' !in StatName(s)
  {
  }

  /** The fields of "request stat hp", in the order the client sends them. */
  const VitalStats: seq<Stat> := [Hp, MaxHp, Sp, MaxSp, Grace, MaxGrace, Food]
  /** The fields of "request stat cmbt". */
  const CombatStats: seq<Stat> := [Wc, Ac, Dam, Speed, WeaponSp]
  /** The fields of "request stat stats". */
  const AbilityScores: seq<Stat> := [Str, Con, Dex, Int, Wis, Pow, Cha]

  /** The three blocks the client reports with "request stat ...". */
  datatype Category = Vital | Combat | Abilities

  /** The stats of a block, in the order the client lists them. */
  function Members(c: Category): seq<Stat> {
    match c
    case Vital => VitalStats
    case Combat => CombatStats
    case Abilities => AbilityScores
  }

  /**
   * The stats after a whole block arrives: each stat of the category takes
   * the value in its position, every other stat keeps what it had.
   */
  function WithBlock(stats: map<Stat, int>, c: Category, v: seq<int>): (r: map<Stat, int>)
    requires |v| == |Members(c)|
    ensures forall i :: 0 <= i < |v| ==> Members(c)[i] in r && r[Members(c)[i]] == v[i]
    ensures forall s :: s in r <==> s in stats || s in Members(c)
    ensures forall s :: s !in Members(c) && s in stats ==> r[s] == stats[s]
  {
    match c
    case Vital =>
      var r := stats[Hp := v[0]][MaxHp := v[1]][Sp := v[2]][MaxSp := v[3]]
                    [Grace := v[4]][MaxGrace := v[5]][Food := v[6]];
      r
    case Combat =>
      var r := stats[Wc := v[0]][Ac := v[1]][Dam := v[2]][Speed := v[3]][WeaponSp := v[4]];
      r
    case Abilities =>
      var r := stats[Str := v[0]][Con := v[1]][Dex := v[2]][Int := v[3]]
                    [Wis := v[4]][Pow := v[5]][Cha := v[6]];
      r
  }

  class PlayerInfo {
    var tag: Option<int>
    var title: Option<string>
    var havePlayerId: bool
    var stats: map<Stat, int>
    var haveVitalStats: bool
    var haveCombatStats: bool
    var haveAbilityScores: bool

    /** Each "have" flag promises that its whole category is known. */
    ghost predicate Valid()
      reads this
    {
      && (havePlayerId ==> tag.Some? && title.Some?)
      && (haveVitalStats ==> forall s :: s in Members(Vital) ==> s in stats)
      && (haveCombatStats ==> forall s :: s in Members(Combat) ==> s in stats)
      && (haveAbilityScores ==> forall s :: s in Members(Abilities) ==> s in stats)
    }

    constructor ()
      ensures Valid()
      ensures tag == None && title == None && !havePlayerId && stats == map[]
      ensures !haveVitalStats && !haveCombatStats && !haveAbilityScores
    {
      tag, title, havePlayerId := None, None, false;
      stats := map[];
      haveVitalStats, haveCombatStats, haveAbilityScores := false, false, false;
    }

    /** The `name` property: the first word of the title. */
    function Name(): (r: Option<string>)
      reads this
      ensures r.None? <==> title.None?
      ensures r.Some? ==> ' ' !in r.value && StartsWith(title.value, r.value)
      ensures r.Some? ==> |r.value| == |title.value| || title.value[|r.value|] == ' '
    {
      if title.None? then None
      else
        var p := Partition(title.value, ' ');
        assert title.value[..|p.0|] == p.0 && (p.1 ==> title.value[|p.0|] == ' ') by {
          if p.1 { assert title.value == p.0 + ([' '] + p.2); }
        }
        Some(p.0)
    }

    /** The "have" flag of category `c`. */
    predicate Have(c: Category)
      reads this
    {
      match c
      case Vital => haveVitalStats
      case Combat => haveCombatStats
      case Abilities => haveAbilityScores
    }

    /** The player's identification is as it was. */
    twostate predicate IdUnchanged()
      reads this
    {
      tag == old(tag) && title == old(title) && havePlayerId == old(havePlayerId)
    }

    /** `haveAllStats`. */
    predicate HaveAllStats()
      reads this
    {
      havePlayerId && haveVitalStats && haveAbilityScores && haveCombatStats
    }

    /** Once every category has arrived, every stat has a value. */
    lemma AllStatsKnown(s: Stat)
      requires Valid() && HaveAllStats()
      ensures s in stats && tag.Some?
    {
      match s
      case Hp | MaxHp | Sp | MaxSp | Grace | MaxGrace | Food =>
        assert s in VitalStats;
      case Wc | Ac | Dam | Speed | WeaponSp =>
        assert s in CombatStats;
      case Str | Con | Dex | Int | Wis | Pow | Cha =>
        assert s in AbilityScores;
    }

    /** `setPlayerId`. */
    method SetPlayerId(tag: int, title: string)
      requires Valid()
      modifies this
      ensures Valid()
      ensures this.tag == Some(tag) && this.title == Some(title) && havePlayerId
      ensures stats == old(stats) && haveVitalStats == old(haveVitalStats)
      ensures haveCombatStats == old(haveCombatStats) && haveAbilityScores == old(haveAbilityScores)
    {
      this.tag := Some(tag);
      this.title := Some(title);
      havePlayerId := true;
    }

    /** One stat assignment, as `_handleWatch` does for "watch stats <name> <value>". */
    method SetStat(s: Stat, value: int)
      requires Valid()
      modifies this
      ensures Valid()
      ensures stats == old(stats)[s := value]
      ensures tag == old(tag) && title == old(title) && havePlayerId == old(havePlayerId)
      ensures haveVitalStats == old(haveVitalStats) && haveCombatStats == old(haveCombatStats)
      ensures haveAbilityScores == old(haveAbilityScores)
    {
      stats := stats[s := value];
    }

    /** `setVitalStats`: the block of "request stat hp". */
    method SetVitalStats(hp: int, maxhp: int, sp: int, maxsp: int, grace: int, maxgrace: int, food: int)
      requires Valid()
      modifies this
      ensures Valid() && haveVitalStats
      ensures stats == old(stats)[Hp := hp][MaxHp := maxhp][Sp := sp][MaxSp := maxsp]
                                 [Grace := grace][MaxGrace := maxgrace][Food := food]
      ensures haveCombatStats == old(haveCombatStats) && haveAbilityScores == old(haveAbilityScores)
      ensures tag == old(tag) && title == old(title) && havePlayerId == old(havePlayerId)
    {
      stats := stats[Hp := hp][MaxHp := maxhp][Sp := sp][MaxSp := maxsp]
                    [Grace := grace][MaxGrace := maxgrace][Food := food];
      haveVitalStats := true;
    }

    /** `setCombatStats`: the block of "request stat cmbt". */
    method SetCombatStats(wc: int, ac: int, dam: int, speed: int, weaponSp: int)
      requires Valid()
      modifies this
      ensures Valid() && haveCombatStats
      ensures stats == old(stats)[Wc := wc][Ac := ac][Dam := dam][Speed := speed][WeaponSp := weaponSp]
      ensures haveVitalStats == old(haveVitalStats) && haveAbilityScores == old(haveAbilityScores)
      ensures tag == old(tag) && title == old(title) && havePlayerId == old(havePlayerId)
    {
      stats := stats[Wc := wc][Ac := ac][Dam := dam][Speed := speed][WeaponSp := weaponSp];
      haveCombatStats := true;
    }

    /** `setAbilityScores`: the block of "request stat stats". */
    method SetAbilityScores(str: int, con: int, dex: int, intel: int, wis: int, pow: int, cha: int)
      requires Valid()
      modifies this
      ensures Valid() && haveAbilityScores
      ensures stats == old(stats)[Str := str][Con := con][Dex := dex][Int := intel]
                                 [Wis := wis][Pow := pow][Cha := cha]
      ensures haveVitalStats == old(haveVitalStats) && haveCombatStats == old(haveCombatStats)
      ensures tag == old(tag) && title == old(title) && havePlayerId == old(havePlayerId)
    {
      stats := stats[Str := str][Con := con][Dex := dex][Int := intel][Wis := wis][Pow := pow][Cha := cha];
      haveAbilityScores := true;
    }
  }
}
