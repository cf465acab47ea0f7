/**
 * Argument descriptors (src/arg.rs): the names a program uses to ask for a
 * flag, an option or a positional, and the forms in which they are shown to
 * the user in error messages.
 */
module Args {
  import opened Wrappers

  const FLAG_PREFIX: string := "--"
  const POS_BRACKET_L: string := "<"
  const POS_BRACKET_R: string := ">"

  /** An unnamed argument identified by its place among the plain words. */
  datatype Positional = Positional(name: string)

  /** A valueless named argument `--name`, optionally also reachable as `-c`. */
  datatype Flag = Flag(name: string, switch: Option<char>)

  /** A named argument that carries a value: the flag part and the value's name. */
  datatype Optional = Optional(option: Flag, value: Positional)

  /** Any descriptor the processor records in its ledger of requested arguments. */
  datatype Arg = FlagArg(flag: Flag) | PositionalArg(positional: Positional) | OptionalArg(optional: Optional)

  // ---------------------------------------------------------------- builders

  function NewPositional(s: string): (p: Positional)
    ensures p.name == s
  {
    Positional(s)
  }

  function NewFlag(s: string): (f: Flag)
    ensures GetName(f) == s && GetSwitch(f) == None
  {
    Flag(s, None)
  }

  /** `Flag::switch`: gives the flag a one-character short form. */
  function FlagSwitch(f: Flag, c: char): (r: Flag)
    ensures GetName(r) == GetName(f) && GetSwitch(r) == Some(c)
  {
    f.(switch := Some(c))
  }

  function GetName(f: Flag): string
  {
    f.name
  }

  function GetSwitch(f: Flag): Option<char>
  {
    f.switch
  }

  /** `Optional::new(s)`: flag `--s` without a switch, value shown as `<s>`. */
  function NewOptional(s: string): (o: Optional)
    ensures GetName(GetFlag(o)) == s && GetSwitch(GetFlag(o)) == None
    ensures GetPositional(o).name == s
  {
    Optional(NewFlag(s), NewPositional(s))
  }

  /** `Optional::value`: renames the value and touches nothing else. */
  function OptionalValue(o: Optional, s: string): (r: Optional)
    ensures GetFlag(r) == GetFlag(o) && GetPositional(r).name == s
  {
    o.(value := o.value.(name := s))
  }

  /** `Optional::switch`: sets the switch of the flag part and touches nothing else. */
  function OptionalSwitch(o: Optional, c: char): (r: Optional)
    ensures GetName(GetFlag(r)) == GetName(GetFlag(o)) && GetSwitch(GetFlag(r)) == Some(c)
    ensures GetPositional(r) == GetPositional(o)
  {
    o.(option := o.option.(switch := Some(c)))
  }

  function GetFlag(o: Optional): Flag
  {
    o.option
  }

  function GetPositional(o: Optional): Positional
  {
    o.value
  }

  /** `Arg::as_flag`: the flag identity of a descriptor, if it has one. */
  function AsFlag(a: Arg): (r: Option<Flag>)
    ensures r.None? <==> a.PositionalArg?
    ensures a.FlagArg? ==> r == Some(a.flag)
    ensures a.OptionalArg? ==> r == Some(GetFlag(a.optional))
  {
    match a
    case FlagArg(f) => Some(f)
    case OptionalArg(o) => Some(GetFlag(o))
    case PositionalArg(_) => None
  }

  // ---------------------------------------------------------------- display forms

  function PositionalDisplay(p: Positional): string
  {
    POS_BRACKET_L + p.name + POS_BRACKET_R
  }

  function FlagDisplay(f: Flag): string
  {
    FLAG_PREFIX + GetName(f)
  }

  function OptionalDisplay(o: Optional): string
  {
    FlagDisplay(o.option) + " " + PositionalDisplay(o.value)
  }

  /** `Display for Arg`. */
  function Display(a: Arg): string
  {
    match a
    case FlagArg(f) => FlagDisplay(f)
    case PositionalArg(p) => PositionalDisplay(p)
    case OptionalArg(o) => OptionalDisplay(o)
  }

  /** `Debug for Arg`: the display form in single quotes. */
  function DebugForm(a: Arg): (s: string)
    ensures |s| == |Display(a)| + 2 && s[0] == '\'' && s[|s| - 1] == '\''
    ensures s[1..|s| - 1] == Display(a)
  {
    "'" + Display(a) + "'"
  }

  // ---------------------------------------------------------------- reading display forms back

  /** Reads a `<name>` form back; the partner of PositionalDisplay. */
  function ReadPositional(s: string): Option<Positional>
  {
    if 2 <= |s| && s[0] == '<' && s[|s| - 1] == '>' then Some(Positional(s[1..|s| - 1])) else None
  }

  /** Reads a `--name` form back to the flag name; the partner of FlagDisplay. */
  function ReadFlagName(s: string): Option<string>
  {
    if 2 <= |s| && s[..2] == FLAG_PREFIX then Some(s[2..]) else None
  }

  lemma PositionalDisplayRoundTrip(p: Positional)
    ensures ReadPositional(PositionalDisplay(p)) == Some(p)
  {
    var s := PositionalDisplay(p);
    assert s[1..|s| - 1] == p.name;
  }

  /** The display of a flag is `--` and its name, and the switch is never shown. */
  lemma FlagDisplayRoundTrip(f: Flag)
    ensures ReadFlagName(FlagDisplay(f)) == Some(f.name)
    ensures forall c :: FlagDisplay(FlagSwitch(f, c)) == FlagDisplay(f)
  {
    assert FlagDisplay(f)[2..] == f.name;
  }

  /** Two flags display alike exactly when their names agree. */
  lemma FlagDisplayInjective(f: Flag, g: Flag)
    ensures FlagDisplay(f) == FlagDisplay(g) <==> f.name == g.name
  {
    if FlagDisplay(f) == FlagDisplay(g) {
      FlagDisplayRoundTrip(f);
      FlagDisplayRoundTrip(g);
    }
  }

  /** An option shows as `--name <value>`, whether or not it has a switch. */
  lemma OptionalDisplayShape(o: Optional, c: char)
    ensures OptionalDisplay(o) == FlagDisplay(GetFlag(o)) + " " + PositionalDisplay(GetPositional(o))
    ensures OptionalDisplay(OptionalSwitch(o, c)) == OptionalDisplay(o)
    ensures OptionalDisplay(NewOptional(o.option.name)) == "--" + o.option.name + " <" + o.option.name + ">"
  {
  }

  /** The builders of Optional commute and the later call of the same builder wins. */
  lemma OptionalBuildersCommute(o: Optional, s: string, t: string, c: char)
    ensures OptionalSwitch(OptionalValue(o, s), c) == OptionalValue(OptionalSwitch(o, c), s)
    ensures OptionalValue(OptionalValue(o, s), t) == OptionalValue(o, t)
  {
  }
}
