# clif argument processor, in Dafny

A model of the command-line argument processor of `clif` (Rust), with proofs
about it. The processor (`Cli`) works in two phases.

1. **Tokenizing.** The tokenizer turns the arguments after the program name
   into a vector of optional tokens and a store. The store maps each long
   flag name (`--name`) and each switch (`-c`) to the positions of its tokens
   in the vector.
2. **Querying.** The program then asks typed queries for flags, options,
   positionals and subcommands. Each query empties the token slots it uses
   ("takes" them) and records the requested argument in a ledger
   (`known_args`).

A help flag, once raised, is latched, and it can take priority over every
later error. Leftover checks report whatever the program never asked for,
with a spelling suggestion when the threshold allows one.

Modules:

- `Wrappers` — `Option` and `Result`.
- `Args` — argument descriptors and their display forms (`src/arg.rs`).
- `HelpDesc` — the help descriptor (`src/help.rs`).
- `Errors` — the error record, its exit code and its message with colour off
  (`src/error.rs`).
- `Tokens` — tokens, store tags, the tokenizer as a function, and the
  well-formedness invariant `Wf` of the vector and store (`src/cli.rs:17-174`).
- `Stream` — the token-arena operations as functions on the vector and
  store: pulling a flag's values, serving plain words, draining the
  remainder after `--`, and finding the leftmost store slot.
- `Ledger` — the requested-argument names and the value conversion of the
  option queries.
- `Processor` — class `Cli`. Its fields are the ones the source mutates.
  Each method states its new state through the `Stream` functions and keeps
  `Valid()` (that is, `Wf`).
- `Findings` — lemmas about the concrete input `prog -ab cmd` that exhibit
  the breakpoint error of `match_command`.

The vector keeps two numbering schemes.

- A token's **origin** is the index of the argument it came from.
- Its **position** is its index in the vector.

Combined switches (`-abc`) give several tokens with one origin, so positions
run ahead of origins. The store records positions.

## Model

| member | source | states |
|---|---|---|
| Args.NewPositional | src/arg.rs:48-53 | the positional carries the given name |
| Args.NewFlag | src/arg.rs:75-81 | the flag has the given name and no switch |
| Args.FlagSwitch | src/arg.rs:82-86 | sets the switch and keeps the name |
| Args.NewOptional | src/arg.rs:108-115 | `Optional::new(s)`: flag name `s`, value name `s`, no switch |
| Args.OptionalValue | src/arg.rs:116-120 | changes only the value name; the flag is unchanged |
| Args.OptionalSwitch | src/arg.rs:121-125 | changes only the flag's switch; the name and value are unchanged |
| Args.AsFlag | src/arg.rs:17-25 | None exactly for a positional; the flag itself for a flag; the inner flag for an option |
| Args.DebugForm | src/arg.rs:37-41 | the Debug form is the Display form between single quotes |
| Args.PositionalDisplayRoundTrip | src/arg.rs:56-66 | a positional displays as `<name>`, and reading that form back gives the positional |
| Args.FlagDisplayRoundTrip | src/arg.rs:96-100 | a flag displays as `--name`, which reads back to the name; the switch is never shown |
| Args.FlagDisplayInjective | src/arg.rs:96-100 | two flags display alike exactly when their names are equal |
| Args.OptionalDisplayShape | src/arg.rs:135-139 | an option displays as `--name <value>`, with or without a switch, and `Optional::new(s)` as `--s <s>` |
| Args.OptionalBuildersCommute | src/arg.rs:116-125 | the value and switch builders commute, and a second `value` call overrides the first |
| HelpDesc.New | src/help.rs:3-6 | `Help::new()`: flag `--help`, switch `h`, empty text |
| HelpDesc.DefaultIsNew | src/help.rs:14-29 | `Default::default()` equals `Help::new()` |
| HelpDesc.WithFlag | src/help.rs:31-34 | replaces the flag and keeps the text |
| HelpDesc.WithText | src/help.rs:36-39 | replaces the text and keeps the flag |
| HelpDesc.GettersDetermine | src/help.rs:41-47 | the two getters determine the descriptor; rebuilding from them gives it back |
| Errors.Code | src/error.rs:57-63 | 0 exactly for the Help kind, 101 for every other kind |
| Errors.AsQuickHelp | src/error.rs:45-50 | None for every kind but Help; for Help, the descriptor's text when there is one |
| Errors.HelpTip | src/error.rs:70-79 | None exactly when the error carries no help descriptor; otherwise, with colour off, the text `"\n\nFor more information try '--<flag>'."` |
| Errors.NewAccessors | src/error.rs:34-42 | `kind()` and `context()` give back what `new` stored |
| Errors.NatToString | src/error.rs:125-130 | the count in a message is a non-empty string of decimal digits |
| Errors.DecimalRoundTrip | src/error.rs:125-130 | the decimal form of a count reads back to the count |
| Errors.Render | src/error.rs:117-215 | `Display for Error` with colour off. The contract: there is a message except when a FailedArg context has a kind other than MissingPositional, DuplicateOptions or ExpectingValue, or a SuggestWord context has a kind other than SuggestArg or SuggestSubcommand (the two panics). The body's message texts are those of the source word for word; no usage line is shown (see Left out) |
| Errors.ExceededThresholdMessage | src/error.rs:125-130 | the count message starts with the head naming the argument and ends with " times"; the digits right after the head read back to the limit, and the digits right before " times" read back to the supplied count |
| Tokens.IndexOf | src/cli.rs:110-114 | the first position of the character, or None exactly when it does not occur |
| Tokens.SplitOnce | src/cli.rs:110-114 | splitting at `=` breaks at its first occurrence only; the two halves and the `=` rebuild the argument |
| Tokens.TokenizeWf | src/cli.rs:95-174 | the tokenizer's output is well formed: slots are non-empty and ascending, and they index live flag, switch or bare-`-` tokens of their own key; no position is in two slots; every such token is in a slot; after `--` only Ignore tokens follow (plus a value attached to `--`); origins never decrease; an attached value follows its flag. Every token is live |
| Tokens.PlainWords | src/cli.rs:99-166 | arguments without a leading `-` become, in order, `UnattachedArgument(i, arg)` with `i` counted from the argument after the program name, and nothing is stored; in particular no arguments give no tokens |
| Tokens.TerminatedIff | src/cli.rs:110-125 | the tokenizer ends in the terminated state exactly when some argument is `--` (with or without `=value`) |
| Tokens.IgnoredAfterTerminator | src/cli.rs:101-103 | after `--`, every later argument becomes `Ignore(i, arg)` verbatim and the store no longer changes |
| Tokens.CombinedSwitchesExample | src/cli.rs:105-162 | `orbit --help -vhc=10` gives a flag token, then one switch token per character (all with origin 1), then `AttachedArgument(1, "10")`; the store maps each key to its position |
| Tokens.TerminatorValueExample | src/cli.rs:105-162 | `--=value extra` gives `Terminator(0)`, `AttachedArgument(0, "value")`, `Ignore(1, "extra")`, and an empty store |
| Tokens.TerminatorValueStep | src/cli.rs:105-162 | `--=v` gives `Terminator(i)` then `AttachedArgument(i, v)`, sets the terminated state and leaves the store unchanged |
| Tokens.BareDashExample | src/cli.rs:136-150 | a bare `-` gives an EmptySwitch token stored under the empty switch key |
| Tokens.CombinedWordExample | src/cli.rs:134-166 | `prog -ab cmd` gives two switch tokens with origin 0, then `UnattachedArgument(1, "cmd")` at position 2 |
| Stream.PullStep | src/cli.rs:852-879 | one step of `pull_flag`: empties the flag, then takes the value behind it (an attached value always, a plain word only when asked); that value is the one the unchanged vector has there |
| Stream.PullKeepsWords | src/cli.rs:666-676 | a pull that does not take plain words leaves every plain word in place |
| Stream.FlagLocsFacts | src/cli.rs:918-932 | a flag's positions are distinct live flag-like tokens, and they are exactly the positions under its two keys |
| Stream.ClaimWf | src/cli.rs:498-505 | taking a flag's keys out of the store and pulling its positions keeps the vector and store well formed |
| Stream.TakeBoth | src/cli.rs:918-932 | `take_flag_locs` then `take_switch_locs` give the long-name positions followed by the switch positions, and they remove exactly the flag's keys |
| Stream.ClaimTwice | src/cli.rs:918-922 | once a flag's keys are taken, the same flag has no positions left (a repeated query finds nothing) |
| Stream.FlagValuesOrder | src/cli.rs:593-601 | the values of a flag come from the long form first, in order, then from the switch |
| Stream.FirstStop | src/cli.rs:257-262 | the first live plain word or terminator, with nothing of either kind before it |
| Stream.NextWord | src/cli.rs:257-270 | serving a word takes the head of the word list, and what remains is the rest of the list; a word list is empty when a terminator comes first |
| Stream.WordsIff | src/cli.rs:280-287 | some plain-word token is live exactly when the word list is non-empty |
| Stream.TakeWordWf | src/cli.rs:257-270 | taking a plain word keeps the state well formed |
| Stream.FirstTerminator | src/cli.rs:886-890 | the position of the first live terminator, or None when there is none |
| Stream.RemainderWf | src/cli.rs:885-913 | both outcomes of the remainder drain keep the state well formed |
| Stream.LeftmostUnique | src/cli.rs:749-763 | the key whose first position is smallest is unique, so the result does not depend on map order |
| Stream.LeftmostOf | src/cli.rs:749-763 | among the candidate keys, one whose first position is smallest |
| Stream.FirstLive | src/cli.rs:829-845 | the first position still holding a token |
| Stream.FirstInside | src/cli.rs:749-763 | a key's first position is inside the vector, holds a flag-like token and is its smallest position |
| Stream.FirstLiveKind | src/cli.rs:829-845 | with no flag left, the first live token is a plain word, a terminator or an ignored word |
| Stream.StoreExhausted | src/cli.rs:807-847 | when no token is live, no store key is left |
| Stream.CommandPosition | src/cli.rs:307-318 | the position of the command word: a live plain word, the first stop, holding the head of the word list |
| Stream.FirstWordOrigin | src/cli.rs:307-313 | the breakpoint as written: the origin of the first plain word, None exactly when there is none |
| Stream.LeftoverBeforeCommand | src/cli.rs:319 | with the position breakpoint, a flag is found exactly when a live flag-like token has a smaller origin than the command word |
| Ledger.KnownFlagNames | src/cli.rs:734-743 | the names of exactly the flags and options in the ledger |
| Ledger.KnownFlagNamesAppend | src/cli.rs:734-743 | the names keep the ledger's order and multiplicity: the names of a concatenation are the concatenated names |
| Ledger.KnownFlagNamesPush | src/cli.rs:734-743 | requesting a flag or an option appends its flag name; requesting a positional adds nothing |
| Ledger.FirstSome | src/cli.rs:684 | the first present value, and None exactly when no value is present |
| Ledger.ParseAll | src/cli.rs:605-638 | all values convert exactly when the result is AllParsed, and then the items match them one to one; otherwise the first failing value decides: missing or unconvertible |
| Ledger.ParseAllFailure | src/cli.rs:605-638 | the outcome is decided by the first value that is missing or does not convert |
| Processor.LexArgument | src/cli.rs:100-167 | one turn of the tokenizer loop is the tokenizer's step for that argument |
| Processor.LexSwitches | src/cli.rs:136-158 | one switch token per character, all with the argument's origin, or an EmptySwitch for a bare `-` |
| Processor.PushKeyed | src/cli.rs:127-131 | records the next position under the key, then pushes the token: one tokenizer step for a keyed token |
| Processor.ConvertAll | src/cli.rs:605-633 | the conversion loop equals ParseAll |
| Processor.DrainRemainder | src/cli.rs:891-910 | from the terminator on, every token is taken and the ignored texts are collected in order; a value attached to `--` stops the drain there, and it is reported |
| Processor.SkipToTerminator | src/cli.rs:886-890 | the position of the first live terminator, or the end of the vector when there is none |
| Processor.Cli.constructor | src/cli.rs:80-91 | empty vector, store and ledger; no help; help prioritised; threshold 0 |
| Processor.Cli.Tokenize | src/cli.rs:95-174 | the vector and store are the tokenizer's output for the arguments, and they are well formed |
| Processor.Cli.Threshold | src/cli.rs:177-180 | sets the suggestion threshold |
| Processor.Cli.DownplayHelp | src/cli.rs:228-231 | help no longer takes priority, so it cannot be pending |
| Processor.Cli.EmphasizeHelp | src/cli.rs:236-239 | help takes priority; it is pending exactly when it was asked for and a descriptor is set |
| Processor.Cli.IsHelpEnabled | src/cli.rs:216-218 | true exactly when a help descriptor is set |
| Processor.Cli.DisableHelp | src/cli.rs:221-223 | removes the descriptor, so help cannot be pending |
| Processor.Cli.PrioritizeHelp | src/cli.rs:243-252 | a Help error exactly when help is prioritised, asked for and set; that error has exit code 0 and carries the help text |
| Processor.Cli.Raise | src/cli.rs:243-252 | while help is pending, a check reports the help request instead of its own error |
| Processor.Cli.TakeFlagLocs | src/cli.rs:918-922 | gives the long name's positions and removes only that key |
| Processor.Cli.TakeSwitchLocs | src/cli.rs:925-932 | gives the switch's positions and removes only that key |
| Processor.Cli.PullFlag | src/cli.rs:852-879 | one value per location, in order (an attached value, a plain word only when asked, otherwise None); the flags and the taken values are emptied, and nothing else changes |
| Processor.Cli.TakeValueAfter | src/cli.rs:860-875 | takes an attached value behind the flag always, a plain word only when asked, and leaves anything else in place |
| Processor.Cli.NextUarg | src/cli.rs:257-270 | serves and takes the first remaining plain word; serves nothing and changes nothing when a terminator comes first or no word is left |
| Processor.Cli.Suggest | src/cli.rs:340-344 | no suggestion at threshold 0; any suggestion is a word of the bank |
| Processor.Cli.PrioritizeSuggestion | src/cli.rs:450-489 | silent while help is asked for; otherwise a SuggestArg error for the earliest long flag left over that has a suggestion among the requested flag names |
| Processor.Cli.EarliestSuggestable | src/cli.rs:455-479 | over the store in any order: None exactly when no long flag left over has a suggestion, otherwise the one whose first position is smallest |
| Processor.Cli.FindFirstFlagLeft | src/cli.rs:749-763 | None exactly when no key has a position below the breakpoint; otherwise the key with the smallest first position and that position, whatever the map order |
| Processor.Cli.CaptureBadFlag | src/cli.rs:766-802 | the earliest flag left below the breakpoint, with the prefix it was written with (`-` for switches and bare `-`, `--` for long flags); a help error or a spelling suggestion instead when one applies; Ok(None) exactly when no flag is left below the breakpoint |
| Processor.Cli.EmptyCheckOkIff | src/cli.rs:807-847 | `is_empty` succeeds exactly when help is not pending and no token is left |
| Processor.Cli.IsEmpty | src/cli.rs:807-847 | in order: the help request; a flag left over (UnexpectedArg with its prefix, or a suggestion); the first live plain word; or `--` for a terminator; otherwise Ok |
| Processor.Cli.FlagLocations | src/cli.rs:667-672 | the flag's positions, long form first, and its keys removed from the store |
| Processor.Cli.CheckFlagAll | src/cli.rs:666-707 | the number of long and switch occurrences, with no plain word consumed; UnexpectedValue for the first attached value (the help request while pending); raising the help flag latches the request; the ledger gains the flag, except when the error pops it |
| Processor.Cli.RecordRaised | src/cli.rs:673-706 | records the flag; the first attached value gives UnexpectedValue and pops it (the help request while pending); otherwise the count, latching help when the help flag was raised |
| Processor.Cli.CheckFlag | src/cli.rs:644-661 | true exactly when raised once, false when never raised; DuplicateOptions when raised more than once (the help request while pending) |
| Processor.Cli.CheckFlagN | src/cli.rs:712-728 | the count when it is at most `n`; ExceedingMaxCount with the count and `n` exactly when it is more; latches help like CheckFlagAll (raising the help flag sets the latch, which is otherwise unchanged) |
| Processor.Cli.Help | src/cli.rs:205-213 | installs the descriptor; unless help was already asked for, checks its flag and latches whether it was raised exactly once, passing on that check's errors |
| Processor.Cli.CheckOption | src/cli.rs:494-551 | None for no occurrence; the converted value for one occurrence with a value; BadType when it does not convert; ExpectingValue for one occurrence without a value; DuplicateOptions for more than one (the help request while pending) |
| Processor.Cli.CheckOptionAll | src/cli.rs:587-639 | None for no occurrence; otherwise every value converted in order, or the error of the first value that is missing (ExpectingValue) or does not convert (BadType) |
| Processor.Cli.CheckOptionN | src/cli.rs:556-582 | as CheckOptionAll, and ExceedingMaxCount exactly when more than `n` values all convert |
| Processor.Cli.TryPositional | src/cli.rs:379-405 | None and no change when no word is left; otherwise the word is consumed, and a word that does not convert gives the help request, a flag suggestion, or BadType (which pops the ledger) |
| Processor.Cli.ConversionFailure | src/cli.rs:385-402 | the help request while pending, else a flag suggestion, else BadType for the last requested argument, which is popped |
| Processor.Cli.CheckPositional | src/cli.rs:365-374 | records the positional, then as TryPositional |
| Processor.Cli.RequirePositional | src/cli.rs:410-428 | the converted next word; with no word left: the help request, whatever `is_empty` reports, or MissingPositional (which pops the ledger) |
| Processor.Cli.RequirePositionalAll | src/cli.rs:435-445 | on success, every remaining word converted, in stream order, and at least one, with `p` kept in the ledger; with no word, the same error and ledger as RequirePositional; otherwise the error of the first word that does not convert, with the words after it left in place and `p` popped exactly when the error is BadType |
| Processor.Cli.CheckRemainder | src/cli.rs:885-913 | with no terminator: `[]` and no change; otherwise the terminator and the ignored words are taken and their texts returned in order; a value attached to `--` gives UnexpectedValue; afterwards no terminator is left, so a second call gives `[]` |
| Processor.Cli.CheckCommand | src/cli.rs:275-294 | records the positional, consumes no token, and tells whether a plain word is left |
| Processor.Cli.TakeCommand | src/cli.rs:313-316 | takes the command word before any check, without changing what the leftover check sees |
| Processor.Cli.MatchCommand | src/cli.rs:302-359 | the command word is removed first; then a leftover check at the command's position (corrected breakpoint; the source passes the origin, see Findings); a known command with a flag left before it gives OutOfContextArgSuggest; an unknown one gives a suggestion, or UnknownSubcommand, which pops the ledger; it succeeds exactly when the word is known and no flag-like token was written before it |
| Processor.Cli.RejectCommand | src/cli.rs:339-357 | a word that is not a command: SuggestSubcommand when a suggestion exists; otherwise the help request, or UnknownSubcommand for the last requested argument, which is popped |
| Findings.AsWrittenMissesSwitch | src/cli.rs:307-319 | for `prog -ab cmd` with `-a` claimed, the breakpoint as written (origin 1) sees no leftover, although `-b` precedes `cmd`; the command's position (2) finds `-b` |

## Left out

- Colour: `use_color`/`disable_color` and the colour codes in messages. Messages are modelled with colour off.
- The edit-distance routine `seqalin::sel_min_edit_str` is not part of this model. It is a `Suggester` function given to the constructor. The model assumes only that its answer is a word of the bank, and it is bypassed at threshold 0.
- `FromStr` conversion is a `Parser<T>` parameter. Its error is kept as a message: the boxed foreign error in FailedCast and BrokenRule is not modelled.
- `check_command` does not call `T::from_cli`. Building the subcommand is left to the caller.
- The `get_quick_text` and `get_usage` calls in src/error.rs do not exist on `Help` in src/help.rs. The quick help is the help text, and no usage is shown.
- src/errors.rs, src/proc.rs, src/command.rs, src/lib.rs and the example programs are not part of this model.
- Token::_get_index_ref: unused by the processor; origins are read from the token fields.
- Processor.Cli.IsEmpty: the source panics when the first live token is an ignored word. That can happen after a failed `check_remainder`. The model excludes it with the `EmptyDefined` precondition, and RequirePositional and RequirePositionalAll inherit it when no word is left.
- Processor.Cli.MatchCommand: the source panics when no plain word is left, or when an unknown command meets an empty ledger. The model excludes both with its preconditions (`MatchDefined`).
- Processor.Cli.TryPositional: requires a non-empty ledger, as the source's `pop().unwrap()` does. CheckPositional provides one.
- Processor.Cli.PrioritizeSuggestion and Processor.Cli.FindFirstFlagLeft: the source's sort-then-search and its loop over `HashMap` are modelled as one search for the minimum over the store's keys. The result is proved independent of the visiting order.
- `usize` arithmetic: counts and positions are unbounded naturals. No overflow is reachable for vectors that fit in memory.
- Processor.Cli.Help: the `is_help_enabled()` test in the source is always true right after the assignment. The model keeps it.

## Findings

| source | as written | input that shows it | evidently intended | confidence | as-written member | corrected member |
|---|---|---|---|---|---|---|
| src/cli.rs:307-319 | `match_command` passes the command word's origin (argument index) as the breakpoint to `capture_bad_flag`, which compares it with token positions (src/cli.rs:754) | `prog -ab cmd` where the program claims `-a` and then matches `cmd`: `-b` sits at position 1 and the command has origin 1, so `-b` is not reported and `cmd` is accepted | report any flag left before the command word, that is, use the command's position in the vector | high (not executed) | Stream.FirstWordOrigin, Findings.AsWrittenMissesSwitch | Processor.Cli.MatchCommand, Stream.LeftoverBeforeCommand |
