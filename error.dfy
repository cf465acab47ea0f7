/**
 * The error record (src/error.rs): a kind, a context payload, the help
 * descriptor active when the error arose, the exit-code mapping and the
 * message shown to the user (colour disabled).
 */
module Errors {
  import opened Wrappers
  import opened Args
  import HD = HelpDesc

  const NEW_PARAGRAPH: string := "\n\n"
  const BAD: nat := 101
  const OKAY: nat := 0

  datatype ErrorKind =
    | BadType
    | MissingPositional
    | DuplicateOptions
    | ExpectingValue
    | UnexpectedValue
    | OutOfContextArgSuggest
    | UnexpectedArg
    | SuggestArg
    | SuggestSubcommand
    | UnknownSubcommand
    | BrokenRule
    | Help
    | ExceedingMaxCount

  /**
   * The payload of an error. A parse failure or a broken rule wraps a foreign
   * error value; here it is kept as its message (`reason`).
   */
  datatype ErrorContext =
    | ExceededThreshold(arg: Arg, cur: nat, max: nat)
    | FailedArg(arg: Arg)
    | UnexpectedValue(arg: Arg, value: string)
    | FailedCast(arg: Arg, value: string, reason: string)
    | OutofContextArgSuggest(argument: string, subcommand: string)
    | UnexpectedArg(argument: string)
    | SuggestWord(word: string, suggestion: string)
    | UnknownSubcommand(arg: Arg, subcommand: string)
    | BrokenRule(reason: string)
    | Help

  datatype Error = Error(help: Option<HD.Help>, kind: ErrorKind, context: ErrorContext)

  function New(help: Option<HD.Help>, kind: ErrorKind, context: ErrorContext): Error
  {
    Error(help, kind, context)
  }

  function Kind(e: Error): ErrorKind
  {
    e.kind
  }

  function Context(e: Error): ErrorContext
  {
    e.context
  }

  /** `Error::code`: success for a help request, the failure code otherwise. */
  function Code(e: Error): (c: nat)
    ensures c == OKAY <==> e.kind == ErrorKind.Help
    ensures c != OKAY ==> c == BAD
  {
    match e.kind
    case Help => OKAY
    case _ => BAD
  }

  /** `Error::as_quick_help`: the help text, only for a help request that has a descriptor. */
  function AsQuickHelp(e: Error): (r: Option<string>)
    ensures e.kind != ErrorKind.Help ==> r == None
    ensures e.kind == ErrorKind.Help ==> r == if e.help.Some? then Some(HD.GetText(e.help.value)) else None
  {
    match e.kind
    case Help => if e.help.None? then None else Some(HD.GetText(e.help.value))
    case _ => None
  }

  /** `Error::help_tip`: a pointer to the help flag, when there is a help descriptor. */
  function HelpTip(e: Error): (r: Option<string>)
    ensures r.None? <==> e.help.None?
    ensures e.help.Some? ==> r == Some("\n\nFor more information try '--" + e.help.value.arg.name + "'.")
  {
    if e.help.None? then None
    else
      var lead := NEW_PARAGRAPH + "For more information try '";
      var name := HD.GetFlag(e.help.value).name;
      assert lead + FLAG_PREFIX == "\n\nFor more information try '--";
      assert lead + FlagDisplay(HD.GetFlag(e.help.value)) == lead + FLAG_PREFIX + name;
      Some(lead + FlagDisplay(HD.GetFlag(e.help.value)) + "'.")
  }

  // ---------------------------------------------------------------- decimal numbers

  function DigitChar(d: nat): char
    requires d < 10
  {
    "0123456789"[d]
  }

  function DigitValue(c: char): nat
  {
    if '0' <= c <= '9' then (c as int - '0' as int) as nat else 0
  }

  /** The decimal form in which a count appears in a message. */
  function NatToString(n: nat): (s: string)
    ensures |s| > 0
    ensures forall k :: 0 <= k < |s| ==> '0' <= s[k] <= '9'
  {
    if n < 10 then [DigitChar(n)] else NatToString(n / 10) + [DigitChar(n % 10)]
  }

  /** Reads a string of decimal digits; the partner of NatToString. */
  function ReadDecimal(s: string): nat
  {
    if |s| == 0 then 0 else ReadDecimal(s[..|s| - 1]) * 10 + DigitValue(s[|s| - 1])
  }

  lemma {:induction false} DecimalRoundTrip(n: nat)
    ensures ReadDecimal(NatToString(n)) == n
  {
    var s := NatToString(n);
    if n < 10 {
      assert s[..|s| - 1] == [];
    } else {
      assert s[..|s| - 1] == NatToString(n / 10);
      DecimalRoundTrip(n / 10);
    }
  }

  // ---------------------------------------------------------------- messages

  /**
   * `Display for Error` with colour disabled. `None` stands for the two panics
   * of the source: a FailedArg or SuggestWord context under a kind it has no
   * message for. Usage lines are not part of the help descriptor, so a missing
   * positional shows no usage.
   */
  function Render(e: Error): (r: Option<string>)
    ensures r.None? <==>
      (e.context.FailedArg? && e.kind !in {ErrorKind.MissingPositional, ErrorKind.DuplicateOptions, ErrorKind.ExpectingValue})
      || (e.context.SuggestWord? && e.kind !in {ErrorKind.SuggestArg, ErrorKind.SuggestSubcommand})
  {
    match e.context
    case ExceededThreshold(arg, cur, max) =>
      Some("option '" + Display(arg) + "' can be used up to " + NatToString(max) + " times but was supplied " + NatToString(cur) + " times")
    case Help =>
      Some(HD.GetText(if e.help.Some? then e.help.value else HD.New()))
    case FailedCast(arg, val, reason) =>
      Some("argument '" + Display(arg) + "' failed to process '" + val + "' due to: " + reason)
    case FailedArg(arg) =>
      (match e.kind
       case MissingPositional => Some("missing positional argument '" + Display(arg) + "'")
       case DuplicateOptions => Some("option '" + Display(arg) + "' can only be supplied 1 time")
       case ExpectingValue => Some("option '" + Display(arg) + "' take 1 value but 0 was supplied")
       case _ => None)
    case SuggestWord(word, suggestion) =>
      (match e.kind
       case SuggestArg => Some("unknown argument '" + word + "'" + NEW_PARAGRAPH + "Did you mean '" + suggestion + "'?")
       case SuggestSubcommand => Some("unknown subcommand '" + word + "'" + NEW_PARAGRAPH + "Did you mean '" + suggestion + "'?")
       case _ => None)
    case OutofContextArgSuggest(arg, subcommand) =>
      Some("argument '" + arg + "' is unknown or invalid in the current context" + NEW_PARAGRAPH + "Maybe move it after '" + subcommand + "'?")
    case UnexpectedValue(flag, val) =>
      Some("flag '" + Display(flag) + "' cannot accept a value but was given '" + val + "'")
    case UnexpectedArg(word) =>
      Some("unknown argument '" + word + "'")
    case UnknownSubcommand(arg, subcommand) =>
      Some("unknown subcommand '" + subcommand + "' for '" + Display(arg) + "'")
    case BrokenRule(reason) =>
      Some("a rule conflict occurred due to: " + reason)
  }

  // ---------------------------------------------------------------- properties

  /** The accessors give back exactly what the constructor stored. */
  lemma NewAccessors(help: Option<HD.Help>, kind: ErrorKind, context: ErrorContext)
    ensures Kind(New(help, kind, context)) == kind
    ensures Context(New(help, kind, context)) == context
    ensures New(help, kind, context).help == help
  {
  }

  predicate IsDigit(c: char)
  {
    '0' <= c <= '9'
  }

  /** The run of decimal digits a string starts with. */
  function LeadingDigits(s: string): (d: string)
    ensures |d| <= |s| && d == s[..|d|]
  {
    if |s| > 0 && IsDigit(s[0]) then [s[0]] + LeadingDigits(s[1..]) else []
  }

  /** The run of decimal digits a string ends with. */
  function TrailingDigits(s: string): (d: string)
    ensures |d| <= |s| && d == s[|s| - |d|..]
  {
    if |s| > 0 && IsDigit(s[|s| - 1]) then TrailingDigits(s[..|s| - 1]) + [s[|s| - 1]] else []
  }

  /** A digit string followed by a non-digit is exactly the leading run. */
  lemma {:induction false} LeadingDigitsOf(d: string, rest: string)
    requires forall k :: 0 <= k < |d| ==> IsDigit(d[k])
    requires |rest| > 0 && !IsDigit(rest[0])
    ensures LeadingDigits(d + rest) == d
  {
    if |d| > 0 {
      assert (d + rest)[1..] == d[1..] + rest;
      LeadingDigitsOf(d[1..], rest);
    } else {
      assert d + rest == rest;
    }
  }

  /** A digit string preceded by a non-digit is exactly the trailing run. */
  lemma {:induction false} TrailingDigitsOf(pre: string, d: string)
    requires forall k :: 0 <= k < |d| ==> IsDigit(d[k])
    requires |pre| > 0 && !IsDigit(pre[|pre| - 1])
    ensures TrailingDigits(pre + d) == d
  {
    if |d| > 0 {
      assert (pre + d)[..|pre + d| - 1] == pre + d[..|d| - 1];
      TrailingDigitsOf(pre, d[..|d| - 1]);
    } else {
      assert pre + d == pre;
    }
  }

  /**
   * Two digit strings, with non-digits around them, are recovered from the
   * text they are embedded in.
   */
  lemma DigitRunsRecovered(head: string, dx: string, mid: string, dy: string, tail: string)
    requires forall k :: 0 <= k < |dx| ==> IsDigit(dx[k])
    requires forall k :: 0 <= k < |dy| ==> IsDigit(dy[k])
    requires |mid| > 0 && !IsDigit(mid[0]) && !IsDigit(mid[|mid| - 1])
    ensures var m := head + dx + mid + dy + tail;
      |head| + |tail| <= |m| && m[..|head|] == head && m[|m| - |tail|..] == tail &&
      LeadingDigits(m[|head|..]) == dx && TrailingDigits(m[..|m| - |tail|]) == dy
  {
    var m := head + dx + mid + dy + tail;
    var back := mid + dy + tail;
    var front := head + dx + mid;
    assert m[|head|..] == dx + back;
    LeadingDigitsOf(dx, back);
    assert m[..|m| - |tail|] == front + dy;
    TrailingDigitsOf(front, dy);
  }

  /**
   * The count message can be read back: after the head that names the
   * argument comes the limit, and the message ends with the supplied count
   * followed by " times".
   */
  lemma ExceededThresholdMessage(h: Option<HD.Help>, k: ErrorKind, a: Arg, cur: nat, max: nat)
    ensures Render(Error(h, k, ExceededThreshold(a, cur, max))).Some?
    ensures var m := Render(Error(h, k, ExceededThreshold(a, cur, max))).value;
      var head := "option '" + Display(a) + "' can be used up to ";
      |head| + 6 <= |m| && m[..|head|] == head && m[|m| - 6..] == " times" &&
      ReadDecimal(LeadingDigits(m[|head|..])) == max && ReadDecimal(TrailingDigits(m[..|m| - 6])) == cur
  {
    var mid := " times but was supplied ";
    assert |mid| > 0 && !IsDigit(mid[0]) && !IsDigit(mid[|mid| - 1]);
    DigitRunsRecovered("option '" + Display(a) + "' can be used up to ", NatToString(max), mid, NatToString(cur), " times");
    DecimalRoundTrip(max);
    DecimalRoundTrip(cur);
  }
}
