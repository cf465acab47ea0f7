/**
 * The help descriptor (src/help.rs): the flag that asks for help and the
 * text shown when it is raised.
 */
module HelpDesc {
  import opened Wrappers
  import opened Args

  const HELP_FLAG: string := "help"
  const HELP_SWITCH: char := 'h'

  datatype Help = Help(arg: Flag, text: string)

  /** `Help::new`: the flag `--help` with switch `-h`, and no text. */
  function New(): (h: Help)
    ensures GetName(GetFlag(h)) == HELP_FLAG && GetSwitch(GetFlag(h)) == Some(HELP_SWITCH)
    ensures GetText(h) == ""
  {
    Help(FlagSwitch(NewFlag(HELP_FLAG), HELP_SWITCH), "")
  }

  /** `Default for Help`, written out on its own as the source does. */
  function Default(): Help
  {
    Help(Flag(HELP_FLAG, Some(HELP_SWITCH)), [])
  }

  /** `Help::flag`: replaces the flag and keeps the text. */
  function WithFlag(h: Help, f: Flag): (r: Help)
    ensures GetFlag(r) == f && GetText(r) == GetText(h)
  {
    h.(arg := f)
  }

  /** `Help::text`: replaces the text and keeps the flag. */
  function WithText(h: Help, t: string): (r: Help)
    ensures GetText(r) == t && GetFlag(r) == GetFlag(h)
  {
    h.(text := t)
  }

  function GetFlag(h: Help): Flag
  {
    h.arg
  }

  function GetText(h: Help): string
  {
    h.text
  }

  lemma DefaultIsNew()
    ensures Default() == New()
  {
  }

  /** A descriptor is fully determined by what its two getters return. */
  lemma GettersDetermine(h: Help, g: Help)
    ensures GetFlag(h) == GetFlag(g) && GetText(h) == GetText(g) ==> h == g
    ensures WithText(WithFlag(New(), GetFlag(h)), GetText(h)) == h
  {
  }
}
