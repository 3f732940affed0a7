# rclrust interface compiler front end, in Dafny

This project models the front end of rclrust's code generator for ROS 2
interface files (`.msg`, `.srv`, `.action`) and proves properties of it.
It also models the small build-layer logic that decides which packages are
compiled and which commands cargo receives.

- **Type model** (`primitives.dfy`, `member_type.dfy`, `constant_type.dfy`,
  `messages.dfy`, `packages.dfy`). The member and constant type enums and
  their `From` conversions. The message, service and action records. The
  `Package` record with `library_names` and `is_empty`.
- **Declaration validators** (`sub_parsers.dfy`, `member_parser.dfy`,
  `constant_parser.dfy`). `member_def` and `constant_def`, together with the
  checks of a default or constant value against its declared type.
  - The nom type, identifier and literal parsers live in modules outside this
    model. They are the fields of `SubParsers.Grammar`, a record of parser
    functions that every declaration parser takes as a parameter.
  - The whitespace combinators are given bodies, on positions in the line.
  - The integer literal parser is also given a body, with the range of every
    integer width.
- **Dialect splitters** (`newlines.dfy`, `interface_parsers.dfy`).
  - `fix_newlines`: CR LF becomes LF, and a final LF is added when missing.
  - The service split at the first `---\n` separator.
  - The action split at two separators.
  - The message-file parser `parse_message_string` lives outside this model.
    It is the function parameter `MessageFiles.MessageParser`.
- **Derived action types** (`action_types.dfy`). The `_SendGoal` and
  `_GetResult` services and the `_FeedbackMessage` message that an action
  implies, and the `goal_id` member.
- **Message-path selector and settings tree** (`msg_path.dfy`,
  `ament_tree.dfy`).
  - `MsgPath::from_str` checks three `/`-separated tokens against its validity
    matrix.
  - `AmentTree` is a class. Its `Set` replaces one slot of its nested maps in
    place. Its `Get` lists the settings that apply to a message, from the most
    general to the exact one.
- **Index lines and package libraries** (`idl_index.dfy`).
  - `parse_line` and `IdlLine::name`, which are the same in both crates.
  - The exclusion check of `load_ament_prefix` and the three C libraries it
    derives for every package.
- **Build drivers** (`package_names.dfy`, `ament_prefixes.dfy`,
  `build_config.dfy`, `compile_driver.dfy`).
  - The `CompileConfig` builders of `config.rs` and `compile.rs` are classes.
    Their setters update the fields in place.
  - The prefix directories: the `AMENT_PREFIX_PATH` entries, then the
    configured paths.
  - Duplicate package names are rejected after sorting. This is a loop over
    the sorted names.
  - The rerun commands.
  - The link commands emitted by `link`. The method is built step by step and
    proved against functions that specify the search part and the library
    part.

The environment variable `AMENT_PREFIX_PATH` is an `Option<string>`
parameter. `OUT_DIR` is a constructor parameter. Loading one install prefix
from disk is the function parameter `AmentPrefixes.PrefixLoader`. File
contents are passed in as strings.

Behaviour of the code worth knowing:

- A service file only has CR LF replaced by LF. It is not given a final line
  feed, unlike an action file.
- A service is split at the first separator only. Any further separator
  becomes part of the response block.
- A constant whose type is a string array gets no value-count check.
  Only basic-type arrays are checked against their size.
- A string constant whose literal does not parse is reported as
  `ParseDefaultValueError`, not `ParseConstantValueError`.
- `MsgPath::from_str` accepts empty package and message tokens:
  `/msg/` is the path `PkgMsgMsg("", "")`.
- A package token must be all ASCII letters and digits. So a package whose
  name holds `_`, such as `std_msgs`, cannot be selected by name.
  `MsgPaths.UnderscorePackageRejected` states this. Message tokens may hold
  `_`.

## Model

| member | source | states |
|---|---|---|
| MemberTypes.MemberTypeVariants | rclrust-msg-parse/src/types/member.rs:15-25 | every member type is exactly one of NestableType, Array, Sequence, BoundedSequence, and is the image of that variant's conversion |
| MemberTypes.ContainerConversions | rclrust-msg-parse/src/types/member.rs:22-25 | converting an Array, Sequence or BoundedSequence wraps it unchanged in the same-named variant, keeping its element type |
| MemberTypes.NestableShortcuts | rclrust-msg-parse/src/types/member.rs:27-49 | the BasicType, NamedType, NamespacedType and GenericString conversions give the NestableType variant holding the matching nestable sub-variant |
| ConstantTypes.ConstantTypeVariants | rclrust-msg-parse/src/types/constant.rs:18-24 | a constant type is only a wrapped primitive or a wrapped primitive array, never a sequence |
| ConstantTypes.PrimitiveShortcuts | rclrust-msg-parse/src/types/constant.rs:26-36 | the BasicType and GenericUnboundedString conversions go through PrimitiveType |
| Packages.Package.LibraryNames | rclrust-msg-parse/src/types/package.rs:18-23 | exactly two names: the generator library first, the type support library second |
| Packages.Package.IsEmpty | rclrust-msg-parse/src/types/package.rs:25-27 | empty exactly when there are no messages, services or actions |
| Packages.IsEmptyIgnoresLayout | rclrust-msg-parse/src/types/package.rs:25-27 | emptiness does not depend on the share suffixes or the library records |
| SubParsers.WordsEnd | rclrust-msg-parse/src/parser/member.rs:83 | the words-and-blanks recogniser stops after a non-blank, with only blanks after it |
| SubParsers.WordsEndAt | rclrust-msg-parse/src/parser/member.rs:83 | when only blanks follow position e, the recogniser stops exactly at e |
| SubParsers.MemberTail | rclrust-msg-parse/src/parser/member.rs:81-87 | the rest of a member line has no default iff it is all blanks, and fails iff it starts with a non-blank; a default is the text between the leading blanks and the trailing blanks |
| SubParsers.MemberTailOf | rclrust-msg-parse/src/parser/member.rs:81-87 | blanks, a default text and blanks give that default text back |
| SubParsers.ConstantTail | rclrust-msg-parse/src/parser/constant.rs:56-61 | the rest of a constant line must be blanks, `=`, blanks and a non-empty value up to trailing blanks; it fails exactly otherwise |
| SubParsers.ConstantTailOf | rclrust-msg-parse/src/parser/constant.rs:56-61 | `blanks = blanks value blanks` gives the value back |
| SubParsers.IntegerLiteral | rclrust-msg-parse/src/parser/member.rs:19-21 | an accepted integer literal is a prefix of the input, an optionally signed decimal within the type's range, and is not followed by a digit |
| SubParsers.IntegerLiteralWhole | rclrust-msg-parse/src/parser/member.rs:19-21 | a whole text is accepted iff it is an optionally signed decimal within the range; the value is then the text itself |
| MemberParser.NestableTypeDefault | rclrust-msg-parse/src/parser/member.rs:13-33 | a named or namespaced type gives InvalidDefaultError; a literal that fails gives ParseDefaultValueError; otherwise success iff the literal takes the whole text, giving one value |
| MemberParser.ArrayTypeDefault | rclrust-msg-parse/src/parser/member.rs:35-55 | the same rules for a list literal of the element type; success iff it takes the whole text, giving its values |
| MemberParser.ValidateDefault | rclrust-msg-parse/src/parser/member.rs:57-74 | success iff the literal takes the whole text and the count is right (one for a scalar, exactly the size for an array, at most the bound for a bounded sequence, any for a sequence); a wrong count gives the matching condition error |
| MemberParser.MemberDef | rclrust-msg-parse/src/parser/member.rs:76-101 | a line whose type and name do not parse, or whose name is followed by a non-blank, gives ParseMemberError; an accepted member has the parsed type and name, and no default iff only blanks follow; with a default text the line is accepted iff the default validates, with exactly the validated values, and otherwise fails with the validation's error |
| MemberParser.MemberDefNoDefault | rclrust-msg-parse/src/parser/member.rs:93-100 | a member line with only blanks after the name is accepted with default None |
| MemberParser.MemberDefWithDefault | rclrust-msg-parse/src/parser/member.rs:76-101 | a member line with a valid default after a blank is accepted with the validated values |
| MemberParser.IntegerDefaultRange | rclrust-msg-parse/src/parser/member.rs:17-23 | an integer member's default is accepted iff it is decimal integer text within the type's range, and is then kept as written |
| MemberParser.SequenceDefaultLengths | rclrust-msg-parse/src/parser/member.rs:62-72 | with one whole list literal: a sequence takes any count, a bounded sequence at most its bound, an array exactly its size |
| MemberParser.ParseMemberDefExample | rclrust-msg-parse/src/parser/member.rs:111-116 | `int32 aaa` is member `aaa` of type int32 without default |
| MemberParser.ParseMemberDefWithDefaultExample | rclrust-msg-parse/src/parser/member.rs:119-125 | `int32 aaa 30` has default `["30"]` |
| MemberParser.ParseMemberDefNegativeExample | rclrust-msg-parse/src/parser/member.rs:129 | `uint8 aaa -1` is rejected |
| MemberParser.ParseMemberDefOverflowExample | rclrust-msg-parse/src/parser/member.rs:130 | `uint8 aaa 256` is rejected |
| ConstantParser.ValidateValue | rclrust-msg-parse/src/parser/constant.rs:13-49 | success iff the literal takes the whole text and, for a basic-type array only, the count equals the size; a scalar gives one value; a failing basic literal gives ParseConstantValueError; a wrong count gives LengthIsSize |
| ConstantParser.IntegerValueRange | rclrust-msg-parse/src/parser/constant.rs:19-25 | an integer constant is accepted iff its value is decimal integer text within the type's range |
| ConstantParser.StringArraySizeUnchecked | rclrust-msg-parse/src/parser/constant.rs:41-46 | a string array constant takes whatever number of strings its literal holds, whatever the declared size |
| ConstantParser.ConstantDef | rclrust-msg-parse/src/parser/constant.rs:51-73 | a line whose head or `= value` tail does not parse gives ParseConstantError; otherwise the line is accepted iff its value passes ValidateValue, so a basic-type array with the wrong number of values is rejected, and the result is the constant with the validated values or the validation's error |
| ConstantParser.ConstantDefOf | rclrust-msg-parse/src/parser/constant.rs:51-73 | a head followed by `blanks = blanks value blanks` with a valid value is accepted with that value |
| ConstantParser.ParseConstantDefExample | rclrust-msg-parse/src/parser/constant.rs:80-87 | `int32 AAA=30` is constant `AAA` of type int32 with value `["30"]` |
| Newlines.Dos2Unix | rclrust-msg-parse/src/parser/utils.rs:6 | never longer than the input, same length iff the input has no CR LF, and ends with LF iff the input does |
| Newlines.Dos2UnixNoCrlf | rclrust-msg-parse/src/parser/utils.rs:6 | a text without CR LF pairs is unchanged |
| Newlines.Dos2UnixCrlfLines | rclrust-msg-parse/src/parser/utils.rs:6 | lines joined by CR LF come out joined by LF |
| Newlines.FixNewlines | rclrust-msg-parse/src/parser/utils.rs:5-15 | the result always ends with LF; it is the converted text when that already ends with LF, else the converted text plus one LF |
| Newlines.FixNewlinesUnchanged | rclrust-msg-parse/src/parser/utils.rs:6-9 | a text without CR LF that ends with LF is returned unchanged |
| Newlines.FixNewlinesIdempotent | rclrust-msg-parse/src/parser/utils.rs:5-15 | for text without CR, normalising twice equals normalising once |
| Newlines.FixNewlinesTwiceDiffers | rclrust-msg-parse/src/parser/utils.rs:5-15 | with a lone CR before a CR LF, as in `\r\r\n`, a second pass changes the text again, so normalising is not idempotent on all text |
| Text.SplitOnce | rclrust-msg-parse/src/parser/service.rs:27 | none iff the separator does not occur; otherwise the text is before + separator + after, at the first occurrence |
| Text.SplitOnceJoin | rclrust-msg-parse/src/parser/service.rs:27 | splitting `a + sep + b`, with no separator in `a`, gives back `a` and `b` |
| ServiceParser.ParseServiceString | rclrust-msg-parse/src/parser/service.rs:26-48 | no separator gives InvalidServiceSpecification; a service is the request parsed from the text before the first separator as `{srv}_Request` and the response from the rest as `{srv}_Response`, with the given package and name |
| ServiceParser.ParseServiceFile | rclrust-msg-parse/src/parser/service.rs:11-24 | CR LF becomes LF before splitting; text without CR is split as is |
| ServiceParser.ServiceRoundTrip | rclrust-msg-parse/src/parser/service.rs:27-46 | a request block without separator, a separator and a response block parse into exactly those two messages |
| ServiceParser.ServiceFileCrlf | rclrust-msg-parse/src/parser/service.rs:16 | a file written with CR LF parses like the same file written with LF |
| ActionParser.ActionBlocks | rclrust-msg-gen/src/parser/action.rs:33-34 | none iff there are fewer than two separators; otherwise the text is goal + sep + result + sep + feedback with no separator in goal or result |
| ActionParser.SplitAction | rclrust-msg-gen/src/parser/action.rs:33-54 | fewer than two separators give InvalidActionSpecification; an action holds the three blocks parsed as `{name}_Goal`, `{name}_Result` and `{name}_Feedback`, with the given package and name |
| ActionParser.ParseActionString | rclrust-msg-gen/src/parser/action.rs:25-55 | a text without CR is split as is when it ends with LF, and with one LF appended when it does not |
| ActionParser.ActionFileCrlf | rclrust-msg-gen/src/parser/action.rs:32 | an action file written with CR LF parses like the same file written with LF |
| ActionParser.ActionMessageNames | rclrust-msg-gen/src/parser/action.rs:36-54 | the goal, result and feedback messages carry the action's package and the suffixed names |
| ActionParser.ActionNeedsTwoSeparators | rclrust-msg-gen/src/parser/action.rs:33-34 | a text with only one separator is rejected |
| ActionParser.ActionRoundTrip | rclrust-msg-gen/src/parser/action.rs:25-55 | three blocks joined by separators parse into exactly those three messages |
| ActionParser.ActionMissingFinalNewline | rclrust-msg-gen/src/parser/action.rs:32 | a final `---` without LF is completed to a separator before splitting |
| ActionParser.FibonacciExample | rclrust-msg-gen/src/parser/action.rs:70-105 | the Fibonacci action splits into its three blocks and yields package `test_msgs`, name `Fibonacci` and messages `Fibonacci_Goal`, `Fibonacci_Result`, `Fibonacci_Feedback` |
| ActionTypes.GoalIdType | rclrust-msg-parse/src/types/action.rs:133-144 | member `goal_id` of type `unique_identifier_msgs/msg/UUID`, without default |
| ActionTypes.SendGoalSrv | rclrust-msg-parse/src/types/action.rs:19-69 | service `{name}_SendGoal` with `_Request` members `[goal_id, goal: {pkg}/action/{name}_Goal]` and `_Response` members `[accepted: bool, stamp: builtin_interfaces/msg/Time]`, all in the action's package, without constants or defaults |
| ActionTypes.GetResultSrv | rclrust-msg-parse/src/types/action.rs:71-109 | service `{name}_GetResult` with request `[goal_id]` and response `[status: int8, result: {pkg}/action/{name}_Result]`, without constants or defaults |
| ActionTypes.FeedbackMessageMsg | rclrust-msg-parse/src/types/action.rs:111-130 | message `{name}_FeedbackMessage` with members `[goal_id, feedback: {pkg}/action/{name}_Feedback]`, without constants or defaults |
| ActionTypes.DerivedTypesReferToParsedMessages | rclrust-msg-parse/src/types/action.rs:29-33 | for a parsed action, the derived types refer to the goal, result and feedback messages by their parsed package and name |
| ActionTypes.ActionTypeNamesDistinct | rclrust-msg-parse/src/types/action.rs:19-130 | the ten type names one action contributes are pairwise distinct |
| MsgPaths.FromTokens | rclrust-msg-gen/src/msg_path.rs:195-247 | a path iff the three tokens pass the validity matrix; the path's tokens are the input tokens |
| MsgPaths.FromStr | rclrust-msg-gen/src/msg_path.rs:169-250 | accepted iff the `/`-split of the text passes the validity matrix; the error names the text |
| MsgPaths.FromStrToStr | rclrust-msg-gen/src/msg_path.rs:169-250 | an accepted text is rebuilt exactly by joining the path's tokens with `/` |
| MsgPaths.ToStrFromStr | rclrust-msg-gen/src/msg_path.rs:169-250 | every valid path is parsed back from its text |
| MsgPaths.TokensInjective | rclrust-msg-gen/src/msg_path.rs:155-164 | two valid paths with the same tokens are equal |
| MsgPaths.FullWildcardAccepted | rclrust-msg-gen/src/msg_path.rs:219 | `*/*/*` is the global wildcard |
| MsgPaths.UnderscorePackageRejected | rclrust-msg-gen/src/msg_path.rs:195-199 | a package token holding `_` is rejected |
| MsgPaths.UnderscoreMessageAccepted | rclrust-msg-gen/src/msg_path.rs:207-216 | a message token may hold `_`: `geometry/msg/Point_2` is accepted |
| MsgPaths.EmptyNamesAccepted | rclrust-msg-gen/src/msg_path.rs:195-216 | empty package and message tokens are accepted |
| MsgPaths.TokenCountRejected | rclrust-msg-gen/src/msg_path.rs:189-193 | a text with two tokens is rejected |
| MsgPaths.WildcardCombinationsRejected | rclrust-msg-gen/src/msg_path.rs:218-247 | a wildcard package with a non-wildcard kind or message, and a wildcard kind with a named message, are rejected |
| AmentTrees.PresentMembers | rclrust-msg-gen/src/msg_path.rs:105-110 | flattening the optional slots keeps exactly the present values |
| AmentTrees.Query | rclrust-msg-gen/src/msg_path.rs:87-111 | exactly the four selectors that match the message, in the order global wildcard, package wildcard, kind wildcard (matching every message of that kind in the package), exact selector (matching only this message) |
| AmentTrees.AmentTree.constructor | rclrust-msg-gen/src/msg_path.rs:20-27 | no slot is set |
| AmentTrees.AmentTree.Set | rclrust-msg-gen/src/msg_path.rs:30-85 | the slot of the path holds the context afterwards, every other slot is unchanged, and a package path adds its package when missing |
| AmentTrees.AmentTree.Get | rclrust-msg-gen/src/msg_path.rs:87-112 | the present values of the global, package, kind and exact slots, in that order, at most four; for an unknown package only the global wildcard |
| AmentTrees.GetDependsOnlyOnMatches | rclrust-msg-gen/src/msg_path.rs:87-112 | trees that agree on the matching slots give the same result |
| AmentTrees.GetReturnsMatchingSlots | rclrust-msg-gen/src/msg_path.rs:87-112 | a value is returned iff it is stored for a selector that matches the message |
| IdlIndex.NsOf | rclrust-msg-parse/src/parser/package.rs:212-216 | a namespace exactly for `msg`, `srv` and `action`, whose name it is |
| IdlIndex.WithExtension | rclrust-msg-parse/src/parser/package.rs:213-215 | the `.idl` extension is replaced by the namespace's, except that a last component `.idl` has the extension appended |
| IdlIndex.ParseLine | rclrust-msg-parse/src/parser/package.rs:202-223 | skipped iff the line does not end in `.idl`; an error naming the line iff there is no `/` or the prefix is not a namespace; a parsed line's file name ends with `.{ns}` |
| IdlIndex.Name | rclrust-msg-parse/src/parser/package.rs:35-39 | the file name is the result, a `.` and an extension without `.` |
| IdlIndex.NameOf | rclrust-msg-gen/src/parser/package.rs:33-37 | the name before an extension without `.` is recovered |
| IdlIndex.ParseLineRoundTrip | rclrust-msg-gen/src/parser/package.rs:241-251 | `{ns}/{n}.idl` gives file `{n}.{ns}` whose name is `n` |
| IdlIndex.ParseLineBareIdl | rclrust-msg-parse/src/parser/package.rs:210-215 | `{ns}/.idl` gives file `.idl.{ns}` whose name is `.idl` |
| IdlIndex.ParseLineUnknownNamespace | rclrust-msg-gen/src/parser/package.rs:241-246 | a first component that is not a namespace is an error naming the line |
| IdlIndex.ParseLineExamples | rclrust-msg-gen/src/parser/package.rs:267-269 | `msg/TestHoge.idl` gives `TestHoge.msg`, likewise for `srv` and `action` |
| IdlIndex.SkippedLineExamples | rclrust-msg-parse/src/parser/package.rs:251-257 | `test/Test.msg` and the other test lines without `.idl` are skipped |
| IdlIndex.IndexLines | rclrust-msg-parse/src/parser/package.rs:180-188 | fails iff some line fails, with the first failing line's error; otherwise at most one entry per line, each from a parsed line |
| IdlIndex.IndexLinesCons | rclrust-msg-parse/src/parser/package.rs:180-188 | reading `[x] + rest` puts the result of line `x` before that of `rest`, or fails with the first error |
| IdlIndex.IndexLinesSingle | rclrust-msg-parse/src/parser/package.rs:182-187 | one line gives its entry, nothing when skipped, or its error |
| IdlIndex.IndexLinesAppend | rclrust-msg-parse/src/parser/package.rs:180-188 | reading `a + b` gives the entries of `a` then those of `b`, so every parsed line's entry is kept, in index order; otherwise the first failure, in `a` before `b` |
| IdlIndex.Libraries | rclrust-msg-parse/src/parser/package.rs:70-74 | three names, in this order: the package name followed by `__rosidl_generator_c`, by `__rosidl_typesupport_c` and by `__rosidl_typesupport_introspection_c` |
| IdlIndex.LibrariesDistinct | rclrust-msg-parse/src/parser/package.rs:70-74 | a package's three libraries differ, and different packages have different libraries |
| IdlIndex.LibrariesInjective | rclrust-msg-parse/src/parser/package.rs:70-74 | a library name determines both its package and which of the three libraries it is |
| IdlIndex.IndexedPackages | rclrust-msg-parse/src/parser/package.rs:61-74 | exactly the non-excluded names produce a package, each with its three libraries |
| IdlIndex.IndexedPackagesAppend | rclrust-msg-parse/src/parser/package.rs:61-68 | exclusion is a filter that keeps the index order |
| PackageNames.BelowTotal | rclrust-msg-gen/src/config.rs:118 | the name order compares any two names |
| PackageNames.BelowAntisymmetric | rclrust-msg-gen/src/config.rs:118 | names ordered both ways are equal |
| PackageNames.BelowTransitive | rclrust-msg-gen/src/config.rs:118 | the name order is transitive |
| PackageNames.Sort | rclrust-msg-gen/src/config.rs:117-118 | sorted, and a permutation of the input |
| PackageNames.RejectDuplicates | rclrust-msg-gen/src/config.rs:120-127 | on sorted names: success iff no name repeats, returning them strictly increasing; otherwise the error names the least repeated name |
| PackageNames.FirstDuplicate | rclrust-msg-gen/src/config.rs:122-124 | the first adjacent repeat in sorted names is the least repeated name |
| PackageNames.SortedPackageNames | rclrust-msg-gen/src/compile.rs:122-132 | success iff no name repeats; the names come out strictly increasing with the same multiset; otherwise the least repeated name is reported |
| PackageNames.LeastRepeatedUnique | rclrust-msg-gen/src/config.rs:120-127 | at most one name is the least repeated one, so the reported duplicate is determined by the names |
| PackageNames.DistinctIff | rclrust-msg-gen/src/config.rs:120-127 | no name occurs twice iff no two positions hold the same name |
| AmentPrefixes.EnvCommands | rclrust-msg-gen/src/config.rs:159-160 | the env rerun command exactly when the environment is searched |
| AmentPrefixes.PrefixDirs | rclrust-msg-gen/src/config.rs:159-170 | an unset variable fails only when searched; otherwise the `:`-separated entries of the variable, then the configured paths |
| AmentPrefixes.LoadPrefixes | rclrust-msg-gen/src/config.rs:172-174 | one prefix per directory, in order, iff every load succeeds; otherwise the first failure |
| AmentPrefixes.AllPackages | rclrust-msg-gen/src/config.rs:115-117 | a package is listed iff some prefix holds it |
| AmentPrefixes.AllPackagesAppend | rclrust-msg-gen/src/config.rs:115-117 | the packages of `a + b` are those of `a` then those of `b`, prefix by prefix |
| AmentPrefixes.AllPackageNames | rclrust-msg-gen/src/config.rs:117 | one entry per package, at its position, so a name held by two packages is listed twice; a name is listed iff some package of some prefix has it |
| AmentPrefixes.DuplicateNamesIff | rclrust-msg-gen/src/config.rs:117-127 | the duplicate check passes iff no two packages, in one prefix or in different ones, share a name |
| AmentPrefixes.JoinPath | rclrust-msg-parse/src/parser/package.rs:55-58 | the joined path starts with the base and ends with the relative part: `base + rel` when the base is empty or ends with `/`, and `base + "/" + rel` otherwise |
| AmentPrefixes.LoadedPrefixes | rclrust-msg-parse/src/parser/package.rs:54-74 | with a loader that behaves as `load_ament_prefix`, each loaded prefix has its resource, `lib` and `include` directories below its own root, and no loaded package is excluded and each links its three libraries |
| AmentPrefixes.RerunCommands | rclrust-msg-gen/src/config.rs:130-138 | two commands per prefix, its resource directory then its include directory |
| AmentPrefixes.CollectPackages | rclrust-msg-gen/src/compile.rs:119-132 | the prefix and load errors in order; otherwise success iff no package name repeats, with the names sorted strictly and the same multiset, and failure with the least repeated name; with a loader that behaves as `load_ament_prefix`, the prefixes sit below their directories and no excluded name is listed |
| BuildConfig.CompileConfig.constructor | rclrust-msg-gen/src/config.rs:32-44 | search env, rpath and build script on; no prefix paths; exclusions `{libstatistics_collector}`; output dir `OUT_DIR` |
| BuildConfig.CompileConfig.EmitBuildScript | rclrust-msg-gen/src/config.rs:46-49 | only `emit_build_script` changes |
| BuildConfig.CompileConfig.SearchEnv | rclrust-msg-gen/src/config.rs:51-54 | only `search_env` changes |
| BuildConfig.CompileConfig.AmentPrefixPath | rclrust-msg-gen/src/config.rs:56-62 | appends one path, nothing else changes |
| BuildConfig.CompileConfig.AmentPrefixPaths | rclrust-msg-gen/src/config.rs:64-72 | appends the paths in order, nothing else changes |
| BuildConfig.CompileConfig.LinkRpath | rclrust-msg-gen/src/config.rs:74-77 | only `link_rpath` changes |
| BuildConfig.CompileConfig.OutDir | rclrust-msg-gen/src/config.rs:79-85 | only the output directory changes |
| BuildConfig.CompileConfig.ClearExcludePackages | rclrust-msg-gen/src/config.rs:87-90 | the exclusion set becomes empty, nothing else changes |
| BuildConfig.CompileConfig.ExcludePackage | rclrust-msg-gen/src/config.rs:92-98 | adds one name to the exclusion set |
| BuildConfig.CompileConfig.ExcludePackages | rclrust-msg-gen/src/config.rs:100-108 | adds the names to the exclusion set |
| BuildConfig.CompileConfig.Build | rclrust-msg-gen/src/config.rs:110-146 | fails on an unset variable, a failed load or a repeated name, naming the least repeated one; otherwise the names are sorted and distinct, and the build script is the env command then two rerun commands per prefix; with a loader that behaves as `load_ament_prefix`, each prefix sits below its directory and no excluded name is listed |
| CompileDriver.PrefixSearchCommands | rclrust-msg-gen/src/compile.rs:236-251 | three commands per prefix with rpath, one without |
| CompileDriver.LibCommands | rclrust-msg-gen/src/compile.rs:255-267 | one `rustc-link-lib=dylib=` command per library, in order |
| CompileDriver.CompileConfig.constructor | rclrust-msg-gen/src/compile.rs:36-48 | search env, single-file codegen and rpath on; no prefix paths; exclusions `{libstatistics_collector}`; output dir `OUT_DIR` |
| CompileDriver.CompileConfig.SearchEnv | rclrust-msg-gen/src/compile.rs:50-53 | only `search_env` changes |
| CompileDriver.CompileConfig.AmentPrefixPath | rclrust-msg-gen/src/compile.rs:55-61 | appends one path, nothing else changes |
| CompileDriver.CompileConfig.AmentPrefixPaths | rclrust-msg-gen/src/compile.rs:63-71 | appends the paths in order, nothing else changes |
| CompileDriver.CompileConfig.CodegenSingleFile | rclrust-msg-gen/src/compile.rs:73-76 | only `codegen_single_file` changes |
| CompileDriver.CompileConfig.LinkRpath | rclrust-msg-gen/src/compile.rs:78-81 | only `link_rpath` changes |
| CompileDriver.CompileConfig.OutDir | rclrust-msg-gen/src/compile.rs:83-89 | only the output directory changes |
| CompileDriver.CompileConfig.ClearExcludePackages | rclrust-msg-gen/src/compile.rs:91-94 | the exclusion set becomes empty, nothing else changes |
| CompileDriver.CompileConfig.ExcludePackage | rclrust-msg-gen/src/compile.rs:96-102 | adds one name to the exclusion set |
| CompileDriver.CompileConfig.ExcludePackages | rclrust-msg-gen/src/compile.rs:104-112 | adds the names to the exclusion set |
| CompileDriver.CompileConfig.Link | rclrust-msg-gen/src/compile.rs:230-268 | appends the search commands of every prefix, then one library command per library of every package |
| CompileDriver.CompileConfig.Run | rclrust-msg-gen/src/compile.rs:114-159 | fails on an unset variable, a failed load or a repeated name, naming the least repeated one; otherwise sorted distinct names, and commands: the env command, the rerun commands, then the link commands; with a loader that behaves as `load_ament_prefix`, no excluded name is listed and no library of an excluded package is linked |
| CompileDriver.AppendSearchCommands | rclrust-msg-gen/src/compile.rs:236-252 | appends the search commands of the prefixes, in order |
| CompileDriver.AppendPackageLibraries | rclrust-msg-gen/src/compile.rs:255-267 | appends one library command per library of each package, in order |
| CompileDriver.SearchLayout | rclrust-msg-gen/src/compile.rs:236-252 | for prefix i, its search command comes first, followed by the rpath and `--disable-new-dtags` arguments only with rpath |
| CompileDriver.LinkCommandKinds | rclrust-msg-gen/src/compile.rs:235-267 | no search command is a library command, and every library command is one, so the libraries come after all searches |
| CompileDriver.PackageLibrariesLayout | rclrust-msg-gen/src/compile.rs:255-267 | packages with three libraries each link them at positions `3 * i` to `3 * i + 2`, in package order |
| CompileDriver.IndexedPackageLibraries | rclrust-msg-gen/src/compile.rs:255-267 | packages that carry their own three libraries link three libraries each, in package order |
| CompileDriver.PackageLibrariesAppend | rclrust-msg-gen/src/compile.rs:255-267 | the libraries of `a + b` are those of `a` then those of `b` |
| CompileDriver.AllLibrariesOfPackages | rclrust-msg-gen/src/compile.rs:255-267 | the libraries linked for all prefixes are those of all their packages, in package order |
| CompileDriver.ExcludedNotLinked | rclrust-msg-gen/src/compile.rs:114-159 | when no loaded package is excluded and each carries its own libraries, no command of a run names a library of an excluded package |
| CompileDriver.ExcludedLibraryAbsent | rclrust-msg-gen/src/compile.rs:255-267 | the library commands hold no library of an excluded package |
| CompileDriver.RerunNotLib | rclrust-msg-gen/src/compile.rs:114-140 | the env and rerun commands are not library commands |

## Left out

- Reading files, directories and environment variables: file contents, index lines, the `AMENT_PREFIX_PATH` value and `OUT_DIR` are parameters. Loading a prefix from disk is the parameter `PrefixLoader`.
- The nom type, identifier and literal parsers, other than the integer literal parser, are parameters in `SubParsers.Grammar`. Their own behaviour, including float, char, byte and string literals, is not modelled.
- `parse_message_string` is a parameter. The only thing assumed of it, and only where a lemma says so, is that it names its result after the package and name it is given.
- ActionParser.FibonacciExample: states the package and message names only. The members `order` and `sequence` come from `parse_message_string`, which is not part of this model.
- `camel2snake` and the include and share suffixes that `load_ament_prefix` derives: they are path strings built with an unseen case-conversion crate.
- The parsing of each package's messages, services and actions inside `load_ament_prefix`: it is file I/O. Only the exclusion check and the library names are modelled.
- The package record that `load_ament_prefix` builds. The model uses the `Package` of `types/package.rs`, with `IndexedPackage` holding the name and libraries for the build drivers.
- `load_package_dir` and `load_ros2_dir` in `rclrust-msg-gen/src/parser/package.rs`: they are file I/O. Their parse of an index line is the same `parse_line` as in the other crate. Note that the `ensure!` at lines 131-135 of that file requires the package to be empty, which reads as inverted.
- Code generation: `run_codegen_dir`, `run_codegen_file`, `Compiler::codegen` and the generated file list of `CompileOutput`. They are token-stream macros and file writes. `compiler.rs` is not part of this model.
- CompileDriver.CompileConfig.Run: does not model the failure of code generation, so a run that passes loading and the name check always succeeds here.
- BuildConfig.CompileConfig.Build: `emit_build_script` is stored but only read by `compiler.rs`, which is not part of this model.
- PackageNames.SortedPackageNames: `sort_by` sorts the package records. The model sorts their names only, which is what the result and the duplicate check depend on.
- The iteration order of `HashMap` and `HashSet`: the model uses `map` and `set`. `get` looks entries up by key, so the order does not matter.
- AmentTrees.AmentTree.Get: the source's `get` takes `&mut self` but changes nothing. It is a function that only reads the tree.
- `Path` handling: paths are strings. `with_extension` is modelled only for names ending in `.idl`, its only use here. `JoinPath` covers `Path::join` with a relative part only; no canonicalisation is modelled.
- AmentPrefixes.PrefixLoader: the loader is a parameter. What `load_ament_prefix` does with the index (directories below the root, exclusion, three libraries per package) is the predicate `LoadsIndex`, which the exclusion results of `CollectPackages`, `Build` and `Run` take as a hypothesis.
- SubParsers.IntegerLiteral: the `literal` module is not part of this model. Only the range check per integer width and the `uint8 aaa -1` and `uint8 aaa 256` tests of `member.rs` come from the source. The syntax is a reconstruction: an optional `+` or `-` sign, leading zeros allowed, the text returned as written, and `-0` accepted for unsigned types.
- Primitives: `primitives.rs` is not part of this model. The basic, named and string types of `primitives.dfy` are reconstructed from how the core files use them.
- Integer widths: lengths and sizes are unbounded naturals, and no arithmetic here can overflow.
