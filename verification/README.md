# Verified models of selected Zed repository logic

This project models parts of the Zed repository that carry a protocol, a codec or a nontrivial algorithm,
and proves what they promise. `dafny verify dfyconfig.toml` checks everything; no file depends on anything
outside this directory.

## What is modelled

**Consent strings** (`Tcf*.dfy`). The bundle `docs/theme/c15t@2.0.0-rc.3.js` carries an encoder and a
decoder of the IAB Tech Lab "Transparency and Consent String" format, version 2, over the alphabet of
section 5 of RFC 4648. The model has the scalar encoders, the id vector, the vendor vector with its
running size estimate, publisher restrictions with bridged gaps, base64url, segments, and whole strings.
The proofs reach from single integers to the layout of a whole string, bit by bit, and its round trip.
Three results are worth knowing: the 12-bit entry counter overflows for 4096 isolated ids whose largest
one is 65533 to 65535, and only then; the form that the estimate chooses is a shortest one under an exact
condition, which some small sets miss; and a string with a CMP id of 0 or 1 can be written but not read.

**Mention URIs** (`Decimals`, `PercentCode`, `PathEscapes`, `WindowsPath`, `UrlModel`, `UrlOutput`,
`Mention`, `FilePaths`, `MentionTrip`, `LineRanges`, `MentionForms`). The printer and the parser of all
thirteen kinds of mention work on strings, including percent-encoding (section 2.1 of RFC 3986), query
pairs, path normalisation on Windows, line fragments and u32 wrap-around. A mention comes back under an
exact condition, whatever its path holds, and what the parser makes of other spellings and legacy forms is
stated as well. Decoding a path never changes which directories it names.

**ETW recording** (`EtwRecorder`, `EtwEditor`, `EtwSystem`, `EtwStarts`, `EtwDialogs`). An elevated
recorder and the editor exchange one command and one status over a socket. Recorder and editor are classes
with the methods of the source; the system is a state machine over every interleaving of clicks, dialogs,
deliveries and failures, with any number of sessions. A start that is clicked while a launch is pending
can cost a session its handle: its recorder then waits, on a socket that stays open, for a command that
nobody can send. The model says exactly when such a loss is possible, and shows a run. As long as the
handle is there, the recording can be saved or cancelled.

**Reminder protocols** (`PrCleanup`, `PrHistory`, `PrSafety`, `PrExact`, `PrRuns`, `ClaCleanup`,
`ClaHistory`, `GuildSweep`, `GuildLaws`, `GuildHistory`, `GuildSafety`, `GuildExact`, `GuildRuns`). Stale
drafts, unsigned contributor agreements and silent guild assignees are handled by scripts without state of
their own, which read back their earlier comments. Their decisions and loops are modelled as written;
their safety is proved over whole histories of runs that may stop anywhere, interleaved with what people
do. Some guarantees hold in every history. The stronger ones, that a draft is closed or an assignment
cleared only after a reminder that came late enough, fail when a run is overtaken by activity that it did
not see, or when a commit is dated before or after its push. The exact conditions are proved, and runs
that break them are given.

**Duplicate magnets and search candidates** (`StableSort`, `MagnetText`, `Magnets`, `MagnetTrip`,
`SearchCandidates`). One script prints a Markdown list that another one reads back; the model has both on
the level of lines and characters and proves when everything comes back. The second script also selects
candidates under per-channel quotas, which fit exactly when there are at least six places.

**Kernels** (`ExcerptRanges`, `SkillNames`, `Frontmatter`, `TriageBoard`). Merging of excerpt ranges,
skill names and their slugs, the frontmatter scanner, and the weekly triage window with its board.

Code that changes state is modelled by classes and methods with loops, each proved against a function that
defines its result; the properties are lemmas about those functions. `Wrappers` and `Strings` hold shared
helpers.

## Model

| member | source | states |
|---|---|---|
| `TcfBits.IntRoundTrip` | docs/theme/c15t@2.0.0-rc.3.js:1 | the integer encoder fails exactly outside [0, 2^width); otherwise it gives width bits that decode to the integer |
| `TcfBits.IntDecodeEncode` | docs/theme/c15t@2.0.0-rc.3.js:1 | re-encoding a decoded integer gives the same bits: codes are unique |
| `TcfBits.DateRoundTrip` | docs/theme/c15t@2.0.0-rc.3.js:1 | a date encodes exactly when its tenths of a second fit; it comes back rounded to tenths, so unchanged iff it is a multiple of 100 ms |
| `TcfBits.LangRoundTrip` | docs/theme/c15t@2.0.0-rc.3.js:1 | a language code encodes iff its upper case starts with two ASCII letters, and comes back as those two |
| `TcfVector.Vector.Set` | docs/theme/c15t@2.0.0-rc.3.js:1 | a positive id joins the set and the recorded bit length is reset; id 0 or less is a model error that changes nothing |
| `TcfVector.Vector.Unset` | docs/theme/c15t@2.0.0-rc.3.js:1 | the id leaves the set, the largest id is recomputed and the bit length is reset |
| `TcfVector.Vector.Empty` | docs/theme/c15t@2.0.0-rc.3.js:1 | the set becomes empty while the bit length stays |
| `TcfVector.BitfieldRoundTrip` | docs/theme/c15t@2.0.0-rc.3.js:1 | a bitfield of n bits keeps exactly the ids up to n |
| `TcfVector.BitfieldOfIds` | docs/theme/c15t@2.0.0-rc.3.js:1 | the bitfield of the ids read from a bitfield is that bitfield |
| `TcfVector.EncodeFixed` | docs/theme/c15t@2.0.0-rc.3.js:1 | the fixed-width loop writes the bitfield of the set |
| `TcfVector.DecodeFixed` | docs/theme/c15t@2.0.0-rc.3.js:1 | the wrong width is a decoding error; otherwise the vector holds the ids of the set bits and remembers the width |
| `TcfVendors.BuildRangeEncoding` | docs/theme/c15t@2.0.0-rc.3.js:1 | the loop over the collected runs gives the counter and the entries, or the first entry's error |
| `TcfVendors.EncodeVendorVector` | docs/theme/c15t@2.0.0-rc.3.js:1 | the single pass with the running flag, the open run and the collected runs computes header, flag and chosen body, errors included |
| `TcfVendors.FlagNeverReturns` | docs/theme/c15t@2.0.0-rc.3.js:1 | the size estimate never decreases, so the range-is-smaller flag never turns true again and the collected runs are complete whenever it ends true |
| `TcfVendors.RunsCover` | docs/theme/c15t@2.0.0-rc.3.js:1 | the completed runs and the open one hold exactly the ids up to the current one |
| `TcfVendors.DecodeVendorVector` | docs/theme/c15t@2.0.0-rc.3.js:1 | the decoding loops give the ids and the consumed length, or the error, that the recursive definition gives |
| `TcfVendors.VendorRoundTrip` | docs/theme/c15t@2.0.0-rc.3.js:1 | whenever encoding succeeds, decoding the bits followed by anything gives the same ids and consumes exactly the encoded bits, in both forms |
| `TcfVendorBound.EstimateCounts` | docs/theme/c15t@2.0.0-rc.3.js:1 | the running estimate in closed form: 29 + 16 per completed run + 17 per run of two or more ids |
| `TcfVendorBound.RangeChosenIff` | docs/theme/c15t@2.0.0-rc.3.js:1 | the exact condition under which the list of runs is chosen |
| `TcfVendorBound.EncodeFailsIff` | docs/theme/c15t@2.0.0-rc.3.js:1 | encoding fails if and only if the largest id needs more than 16 bits, or the set is 4096 isolated ids with a largest id from 65533 to 65535 |
| `TcfVendorBound.EncodeSucceedsUpTo65532` | docs/theme/c15t@2.0.0-rc.3.js:1 | with a largest id of at most 65532 encoding never fails, although a singleton is estimated at 16 bits instead of 17 |
| `TcfVendorBound.CombCannotBeEncoded` | docs/theme/c15t@2.0.0-rc.3.js:1 | a set of 4096 isolated ids up to 65533 whose encoding fails |
| `TcfVendorBound.EncodedLength` | docs/theme/c15t@2.0.0-rc.3.js:1 | the exact length of both forms |
| `TcfVendorBound.ChosenIsShortestIff` | docs/theme/c15t@2.0.0-rc.3.js:1 | the exact condition, on the largest id, the runs and those with two or more ids, under which the chosen form is no longer than the bitfield and than the list of runs |
| `TcfVendorBound.ChosenFormMayBeLonger` | docs/theme/c15t@2.0.0-rc.3.js:1 | an instance that is not: {1, 3, 46} takes 80 bits in the chosen form and would take 63 in the other |
| `TcfRestrictions.PurposeRestrictionVector.Add` | docs/theme/c15t@2.0.0-rc.3.js:1 | an id is added under its key in insertion order and a new key resets the bit length; a vendor that the GVL does not allow is skipped silently, an invalid key is a model error; the vendors of the key grow by exactly an id that may be restricted so, no others change |
| `TcfRestrictions.OkToHaveIff` | docs/theme/c15t@2.0.0-rc.3.js:1 | with a GVL a vendor may be restricted if and only if it declared the purpose at all (not allowed), or as flexible and under the other legal basis (consent, legitimate interest); without one always |
| `TcfRestrictions.PurposeRestrictionVector.GetVendors` | docs/theme/c15t@2.0.0-rc.3.js:1 | the vendors of a restriction in increasing order |
| `TcfRestrictions.SortedIdsSpec` | docs/theme/c15t@2.0.0-rc.3.js:1 | that list is strictly increasing and holds exactly the ids |
| `TcfRestrictions.FindNextListed` | docs/theme/c15t@2.0.0-rc.3.js:1 | the search for the next id of the GVL up to a vendor |
| `TcfRestrictions.EncodeSpans` | docs/theme/c15t@2.0.0-rc.3.js:1 | the loop that opens and closes ranges across gaps without listed ids writes the number of ranges and their codes |
| `TcfRestrictions.EncodeRestrictionVector` | docs/theme/c15t@2.0.0-rc.3.js:1 | the encoder of all keys in order, errors included |
| `TcfRestrictions.DecodeRestrictionVector` | docs/theme/c15t@2.0.0-rc.3.js:1 | the decoding loops, errors and consumed length included |
| `TcfRestrictionTrip.FillIsLossless` | docs/theme/c15t@2.0.0-rc.3.js:1 | bridging keeps every vendor, adds only ids that the GVL does not list and stays between the smallest and the largest vendor |
| `TcfRestrictionTrip.FillIsExact` | docs/theme/c15t@2.0.0-rc.3.js:1 | an id is added if and only if it lies between two neighbouring vendors with nothing listed between them and something listed from the upper one up to the last vendor |
| `TcfRestrictionTrip.RestrictionsRoundTrip` | docs/theme/c15t@2.0.0-rc.3.js:1 | decoding the code followed by anything gives the bridged entries in order, those without vendors dropped, and consumes exactly the code |
| `TcfRestrictionTrip.VendorsOfFilled` | docs/theme/c15t@2.0.0-rc.3.js:1 | for every key the decoded vendors are the bridged ones of that key |
| `TcfRestrictionTrip.RestrictionsAreLossless` | docs/theme/c15t@2.0.0-rc.3.js:1 | for every purpose and type the decoded vendors include the originals and agree with them on every id of the GVL |
| `TcfRestrictionTrip.RestrictionsEncodeIff` | docs/theme/c15t@2.0.0-rc.3.js:1 | restrictions can be encoded if and only if there are fewer than 4096 keys, each with fitting numbers and vendors, fewer than 4096 ranges, and a vendor list unless it has at most one vendor |
| `TcfBase64.EncodeBase64Url` | docs/theme/c15t@2.0.0-rc.3.js:1 | padding to 24 bits and one character for each six bits |
| `TcfBase64.DecodeBase64Url` | docs/theme/c15t@2.0.0-rc.3.js:1 | six bits for each character, an error for an empty string or a character outside the alphabet |
| `TcfBase64.Base64RoundTrip` | docs/theme/c15t@2.0.0-rc.3.js:1 | decoding the encoded bits gives the bits and the padding zeros; the text is made of whole groups of four characters |
| `TcfBase64.Base64DecodeEncode` | docs/theme/c15t@2.0.0-rc.3.js:1 | a valid text of whole groups is reproduced by decoding and encoding |
| `TcfSegments.DecodedMatches` | docs/theme/c15t@2.0.0-rc.3.js:1 | whatever bits a field is given, a decoded value has the type of that field |
| `TcfSegments.EncodeTcSegment` | docs/theme/c15t@2.0.0-rc.3.js:1 | the field loop of a segment: type bits, fields in order, the first error |
| `TcfSegments.DecodeTcSegment` | docs/theme/c15t@2.0.0-rc.3.js:1 | the cursor loop of a segment updates the model field by field, up to the first error |
| `TcfSegments.EncodeConsentString` | docs/theme/c15t@2.0.0-rc.3.js:1 | the segments joined by dots, with the default segments of the version when none are named |
| `TcfSegments.DecodeConsentString` | docs/theme/c15t@2.0.0-rc.3.js:1 | each part is dispatched on its first three bits and decoded into the model |
| `TcfLayout.CoreLayout` | docs/theme/c15t@2.0.0-rc.3.js:1 | the core segment of version 2 bit by bit: each field at its literal offset up to 213, then the codes of both vendor sets and of the restrictions |
| `TcfLayout.FirstVersionLayout` | docs/theme/c15t@2.0.0-rc.3.js:1 | the core segment of version 1 bit by bit: purposes from bit 132, the vendor code from 156 |
| `TcfLayout.VendorSegmentLayout` | docs/theme/c15t@2.0.0-rc.3.js:1 | disclosed and allowed vendors: the type 1 or 2 in three bits, then the vendor code |
| `TcfLayout.PublisherLayout` | docs/theme/c15t@2.0.0-rc.3.js:1 | the publisher segment bit by bit: the type 3, two sets of 24 purposes, the number of custom purposes in six bits and two sets of as many |
| `TcfLayout.VendorLayout` | docs/theme/c15t@2.0.0-rc.3.js:1 | a vendor code bit by bit: the largest id, the form, and one bit for each id or the number of ranges and the ranges, which are ordered, apart and hold exactly the ids |
| `TcfLayout.RestrictionLayout` | docs/theme/c15t@2.0.0-rc.3.js:1 | the code of restrictions bit by bit: the number of keys, and for each its purpose, type, number of ranges and ranges |
| `TcfLayout.TextLayout` | docs/theme/c15t@2.0.0-rc.3.js:1 | each character of a segment stands for six bits by the alphabet of RFC 4648, the last ones filled with zeros to a multiple of 24 |
| `TcfLayout.UpperLetters` | docs/theme/c15t@2.0.0-rc.3.js:1 | the upper case of ASCII letters, as language and country codes use it |
| `TcfLayout.StringLayout` | docs/theme/c15t@2.0.0-rc.3.js:1 | a string is the texts of its segments with dots between them |
| `TcfLayout.DefaultSegments` | docs/theme/c15t@2.0.0-rc.3.js:1 | the segments that are written when none are named, and their order, each with its exact condition |
| `TcfReading.CoreReading` | docs/theme/c15t@2.0.0-rc.3.js:1 | whoever wrote a core segment: when it is decoded, every field has the value of its bits at its literal offset, in both versions |
| `TcfReading.ListIsRead` | docs/theme/c15t@2.0.0-rc.3.js:1 | any list of ranges, ordered or not, is decoded to the ids of all of them, in both versions |
| `TcfReading.FieldIsRead` | docs/theme/c15t@2.0.0-rc.3.js:1 | a bitfield is decoded to the ids of its set bits, up to the announced largest one |
| `TcfReading.ZeroIsRejected` | docs/theme/c15t@2.0.0-rc.3.js:1 | a range that starts with 0 is a model error |
| `TcfReading.ShortIsRejected` | docs/theme/c15t@2.0.0-rc.3.js:1 | a vendor code that ends too early is a decoding error |
| `TcfReading.DefaultConsentIsRejected` | docs/theme/c15t@2.0.0-rc.3.js:1 | a version 1 list with consent by default is a decoding error |
| `TcfReading.SpanIsRead` | docs/theme/c15t@2.0.0-rc.3.js:1 | a range of a restriction adds its ids to the key; an inverted range is a decoding error, an invalid key a model error |
| `TcfReading.KeyIsRead` | docs/theme/c15t@2.0.0-rc.3.js:1 | the six, two and twelve bits of a key are its purpose, its type and the number of its ranges |
| `TcfReading.TextIsRejectedIff` | docs/theme/c15t@2.0.0-rc.3.js:1 | a text is rejected if and only if it is empty or has a character outside the alphabet |
| `TcfTrip.FieldTrip` | docs/theme/c15t@2.0.0-rc.3.js:1 | at its place in the bits every field is read back to its normal value and the cursor moves past it, or the setter's error is raised exactly when the setter rejects the value |
| `TcfTrip.SegmentTrip` | docs/theme/c15t@2.0.0-rc.3.js:1 | an encoded segment is dispatched to its own decoder and sets the normal value of each of its fields |
| `TcfTrip.TcStringRoundTrip` | docs/theme/c15t@2.0.0-rc.3.js:1 | for any nonempty list of segments that encodes and any target model, decoding gives every field, through padding, base64url and variable-length fields; it fails exactly when the first segment is not the core and the target has another version, or a core segment carries a CMP id of 0 or 1 |
| `TcfTrip.StringEncodesIff` | docs/theme/c15t@2.0.0-rc.3.js:1 | a string can be written if and only if each field of its segments can |
| `TcfTrip.PutSegmentsSets` | docs/theme/c15t@2.0.0-rc.3.js:1 | exactly the fields of the written segments are set, each to its normal value |
| `TcfTrip.ComesBackIff` | docs/theme/c15t@2.0.0-rc.3.js:1 | a field that can be written comes back unchanged iff it is canonical: whole tenths of a second, two upper-case letters, ids within the bitfield, and restrictions with vendors under every key and nothing bridged |
| `Decimals.U32RoundTrip` | crates/acp_thread/src/mention.rs:616-625 | a printed number is parsed back exactly when it is a u32 |
| `PercentCode.DecodeUndoesEncodeIff` | crates/acp_thread/src/mention.rs:461-467 | path encoding does not escape a literal %, so decoding undoes it if and only if the path holds no % followed by two hex digits |
| `PercentCode.FormRoundTrip` | crates/acp_thread/src/mention.rs:469-471 | form encoding of query values is undone for every byte string, and never produces a separator |
| `UrlModel.ParseUrlOfSerialize` | crates/acp_thread/src/mention.rs:80-105 | a well-formed URL is split into the same parts again |
| `UrlModel.SetPlainPath` | crates/acp_thread/src/mention.rs:463-467 | on a path without controls, dot segments, a second leading slash or a vertical-bar drive the path setter only percent-encodes |
| `UrlModel.QueryPairsOfAppend` | crates/acp_thread/src/mention.rs:818-836 | an appended query pair is read back after all earlier ones |
| `UrlOutput.SetterOutput` | crates/acp_thread/src/mention.rs:463-538 | whatever the path setter is given, its output has no dot segment and no character that it escapes; for a file URL it has no backslash and no second leading slash either |
| `Mention.ParseSkill` | crates/acp_thread/src/mention.rs:242-278 | the query loop fills the three parameters and rejects unknown, repeated or missing ones |
| `Mention.ParseDiagnostics` | crates/acp_thread/src/mention.rs:165-178 | the query loop sets the two flags and rejects others |
| `MentionTrip.LineFragmentTrip` | crates/acp_thread/src/mention.rs:603-628 | a printed line range is read back unless a line is the largest u32, whose successor wraps to 0 |
| `LineRanges.LineRangeIff` | crates/acp_thread/src/mention.rs:603-628 | a fragment is parsed to a range of lines if and only if it is one of its spellings: with or without `L`, one numeral for a single line, or two with a colon, a dash, or a dash and another `L` between them |
| `LineRanges.CommonSpellings` | crates/acp_thread/src/mention.rs:603-628 | in particular all of these with plain decimals |
| `LineRanges.U32NumeralIff` | crates/acp_thread/src/mention.rs:618-625 | a u32 is parsed from its numerals, with an optional plus sign and leading zeros, and from nothing else |
| `MentionTrip.PrintedIsUrl` | crates/acp_thread/src/mention.rs:80-104 | a printed mention is never taken for a bare path |
| `MentionTrip.NoEarlierPrefix` | crates/acp_thread/src/mention.rs:149-278 | prefixes below /agent/ whose kinds start with different letters do not capture each other's paths |
| `FilePaths.FilePathTrip` | crates/acp_thread/src/mention.rs:105-148 | a file URL gives its path back exactly when the path is plain (rooted and without backslashes on POSIX, below an upper-case drive on Windows, without controls that are stripped, dot segments, a vertical-bar drive or a second leading slash) and holds no escape, or nothing in it was encoded and its decoding is not UTF-8; for every POSIX path and every absolute Windows path |
| `MentionTrip.FileTripIff` | crates/acp_thread/src/mention.rs:80-148 | a file mention comes back if and only if its path does and does not end in a separator |
| `MentionTrip.DirectoryTrip` | crates/acp_thread/src/mention.rs:473-481 | a directory comes back with its trailing separator if and only if its path does |
| `MentionTrip.SymbolTrip` | crates/acp_thread/src/mention.rs:482-497 | a symbol mention comes back if and only if its path does and neither line is the largest u32 |
| `MentionTrip.SelectionTrip` | crates/acp_thread/src/mention.rs:498-522 | a selection, with or without a path and a column, comes back if and only if its path does and no line and no column is the largest u32 |
| `MentionTrip.ThreadTrip` | crates/acp_thread/src/mention.rs:523-528 | a thread with any name comes back if and only if its id is URL-safe |
| `MentionTrip.RuleTrip` | crates/acp_thread/src/mention.rs:529-539 | a legacy rule with any name comes back if and only if its uuid is nonempty and URL-safe |
| `MentionTrip.DiagnosticsTrip` | crates/acp_thread/src/mention.rs:540-554 | both flags come back in all four combinations |
| `MentionTrip.SkillTrip` | crates/acp_thread/src/mention.rs:572-584 | name, source and path of a skill come back, whatever they hold |
| `MentionTrip.TerminalSelectionTrip` | crates/acp_thread/src/mention.rs:556-561 | the line count comes back |
| `MentionTrip.MentionRoundTripIff` | crates/acp_thread/src/mention.rs:80-586 | all thirteen variants, a directory with its trailing separator: a mention comes back if and only if its path does, a file does not end in a separator, no line or column is the largest u32, and ids are URL-safe, a rule's being a nonempty uuid; no printed path is captured by the prefix test of another kind |
| `MentionForms.PathParameter` | crates/acp_thread/src/mention.rs:205-216 | legacy files and directories with their path as a parameter |
| `MentionForms.SymbolParameter` | crates/acp_thread/src/mention.rs:193-204 | legacy symbols, with any spelling of their lines |
| `MentionForms.SelectionParameter` | crates/acp_thread/src/mention.rs:217-228 | legacy selections, with any spelling of their lines and maybe a column |
| `MentionForms.Defaults` | crates/acp_thread/src/mention.rs:179-183 | what a pasted image, a diff, a conflict and a terminal selection without a parameter mean |
| `MentionForms.NameIsNeeded` | crates/acp_thread/src/mention.rs:149-164 | a thread or a legacy rule is parsed if and only if its one parameter is a name |
| `MentionForms.EmptyRuleIsDefault` | crates/acp_thread/src/mention.rs:157-164 | an empty rule id comes back as the default uuid |
| `MentionForms.BadFragmentIsSecondLine` | crates/acp_thread/src/mention.rs:122-139 | in a file URL a fragment that is no line range selects the second line |
| `MentionForms.UnknownParameter` | crates/acp_thread/src/mention.rs:122-124 | a file URL with a fragment and another parameter than a symbol or a column is rejected |
| `MentionForms.OtherSchemes` | crates/acp_thread/src/mention.rs:279-282 | http and https URLs are fetched, and other schemes than file and zed rejected |
| `MentionForms.BackticksAreStripped` | crates/acp_thread/src/mention.rs:81-84 | backticks around the input do not matter |
| `MentionForms.BarePathParses` | crates/acp_thread/src/mention.rs:98-101 | a rooted path is not taken for a URL, and a line range behind it is read |
| `MentionForms.PrintedText` | crates/acp_thread/src/mention.rs:461-586 | the text that is printed for mentions with one parameter |
| `MentionForms.PrintedId` | crates/acp_thread/src/mention.rs:523-528 | the text that is printed for a thread |
| `MentionForms.PrintedRule` | crates/acp_thread/src/mention.rs:529-539 | and for a legacy rule |
| `PathEscapes.DecodePathEscapes` | crates/acp_thread/src/mention.rs:712-750 | the byte loop returns the decoded path, owned, exactly when decoding changes the input and the result is valid UTF-8 |
| `PathEscapes.DecodingKeepsStructure` | crates/acp_thread/src/mention.rs:707-750 | decoding a path is decoding each component: separators stay in number, kind and order |
| `PathEscapes.RepeatedDecodingKeepsStructure` | crates/acp_thread/src/mention.rs:707-750 | the same for any number of decodings |
| `WindowsPath.NativeIsNormalForm` | crates/acp_thread/src/mention.rs:752-806 | no change is reported exactly for normal forms, and the result is always one: no slash, no lower-case drive |
| `WindowsPath.SpellingsAgree` | crates/acp_thread/src/mention.rs:765-799 | `/D:/r`, `/d/r`, `d:\r`, `d:/r` and their mixtures give one path, for every drive letter and every rest |
| `WindowsPath.UpperCaseIsNoMsysDrive` | crates/acp_thread/src/mention.rs:775-783 | `/C/x` stays a rooted path |
| `EtwRecorder.StepKeepsConsistent` | crates/etw_tracing/etw_tracing.rs:472-531 | while the recording is held the guard is armed; once it is not, the recording was saved or Cancel was called |
| `EtwRecorder.NoRecordingLeaks` | crates/etw_tracing/etw_tracing.rs:490-531 | in every run a recording that started is, at exit, either saved or had Cancel called, not both |
| `EtwRecorder.RecordInner` | crates/etw_tracing/etw_tracing.rs:472-531 | a leftover session is cancelled before Start; the inner function is a run of the protocol up to its status or its early return, and leaves the guard disarmed only with a final status |
| `EtwRecorder.RecordEtwTrace` | crates/etw_tracing/etw_tracing.rs:448-531 | the whole process: without a connection nothing happens; saved or cancelled once started, and still recording at exit only if the last Cancel failed; `Stopped` is sent only after a successful save of that path |
| `EtwEditor.HandlersKeepSentOnce` | crates/etw_tracing/etw_tracing.rs:114-200 | whichever handler runs, at most one command was sent and the handle is stopping exactly when one was |
| `EtwEditor.EtwApp.PromptForOutputPath` | crates/etw_tracing/etw_tracing.rs:114-146 | the dialog opens only from the recording state; otherwise the notice for the state is shown |
| `EtwEditor.EtwApp.SaveRecording` | crates/etw_tracing/etw_tracing.rs:148-169 | saving sends only while a path is chosen, a failed send goes back to recording, and the notice tells which |
| `EtwEditor.EtwApp.ResumeRecording` | crates/etw_tracing/etw_tracing.rs:171-178 | only a handle that waits for a path goes back to recording |
| `EtwEditor.EtwApp.CancelRecording` | crates/etw_tracing/etw_tracing.rs:180-200 | cancelling sends unless the handle is stopping, a failed send goes back to recording, and the notice tells which |
| `EtwEditor.EtwApp.DialogAnswered` | crates/etw_tracing/etw_tracing.rs:133-145 | a chosen path saves, anything else resumes, and an error is shown |
| `EtwDialogs.ChoosingMeansDialog` | crates/etw_tracing/etw_tracing.rs:114-178 | in every reachable state the editor waits for a path only while a dialog is open |
| `EtwDialogs.DismissResumes` | crates/etw_tracing/etw_tracing.rs:133-178 | from every reachable state a dismissed dialog leads back to recording, sends nothing and changes nothing else |
| `EtwDialogs.CanAlwaysSave` | crates/etw_tracing/etw_tracing.rs:114-169 | from every reachable state in which a recording goes on, one or two clicks send exactly the command to save to the picked path |
| `EtwDialogs.CanAlwaysCancel` | crates/etw_tracing/etw_tracing.rs:180-200 | and one click sends exactly the command to cancel; a failed send leaves it recording |
| `EtwDialogs.SaveNoticesAreTrue` | crates/etw_tracing/etw_tracing.rs:114-131 | in every reachable state a click on save opens a dialog or shows the true reason why not |
| `EtwDialogs.CancelNoticesAreTrue` | crates/etw_tracing/etw_tracing.rs:180-200 | the notice after a click on cancel tells truly whether the command was sent |
| `EtwDialogs.PickNoticesAreTrue` | crates/etw_tracing/etw_tracing.rs:148-169 | so does the notice after a path was picked |
| `EtwDialogs.ARecordingCanBeMade` | crates/etw_tracing/etw_tracing.rs:30-238 | whatever has happened before, without a current recording one can be started, saved to the picked path and reported, and no other session is touched |
| `EtwSystem.ProtocolSafety` | crates/etw_tracing/etw_tracing.rs:114-238 | in every interleaving of clicks, dialogs, failed sends and any number of recorders: each handle sent at most one command and is stopping exactly then, no recording leaks, a saved notice is shown only for a path that was chosen and saved, and the shared socket stays open exactly until the task has ended |
| `EtwSystem.NoCommandReachesIt` | crates/etw_tracing/etw_tracing.rs:202-238 | once a session has lost its handle with no command under way, in every continuation no command reaches its recorder: it goes on waiting, or leaves by a failed receive, which cancels the recording |
| `EtwStarts.OnlyOwnHandleIsDropped` | crates/etw_tracing/etw_tracing.rs:202-238 | if starts are not clicked while a launch is pending, a session that waits keeps its handle |
| `EtwStarts.LossIsPossibleIff` | crates/etw_tracing/etw_tracing.rs:202-238 | from a reachable state some session can lose its handle without further clicks on start if and only if one has already, or two sessions wait or can still come to wait |
| `EtwStarts.StartRisksLossIff` | crates/etw_tracing/etw_tracing.rs:202-238 | when starts were clicked apart so far, one more click makes a loss possible if and only if a launch is pending that can still succeed |
| `EtwStarts.LossNeedsOverlap` | crates/etw_tracing/etw_tracing.rs:202-238 | if a session ever loses its handle, start was clicked during a launch |
| `EtwStarts.SecondClickLosesASession` | crates/etw_tracing/etw_tracing.rs:202-238 | two clicks during a launch suffice: the second launch replaces the handle of the first session while its recorder waits, its socket open and no command sent |
| `PrCleanup.FindLatestMarkerCommentAt` | script/github-pr-cleanup.py:236-246 | the loop gives the latest marker comment that is not too early, or none |
| `PrCleanup.FindStaleDrafts` | script/github-pr-cleanup.py:249-255 | the open drafts with 21 days without activity, with that activity, in order |
| `PrCleanup.WarnOrCloseStaleDrafts` | script/github-pr-cleanup.py:344-363 | the loop posts and closes exactly what the decisions say, in order, counts both, and does nothing on a dry run |
| `PrCleanup.DecisionIff` | script/github-pr-cleanup.py:258-270 | each decision exactly: close on an explanation since the activity; explain and close iff there are warnings since then, all seven days old; warn iff there is neither |
| `PrCleanup.DecisionIsJustified` | script/github-pr-cleanup.py:258-270 | a comment is posted only without an earlier one of its kind since the activity; a close with a new explanation needs a warning at least seven days old, one without needs an explanation |
| `PrCleanup.EffectsIff` | script/github-pr-cleanup.py:258-363 | the effects on a stale draft, each with its exact occasion in days and markers |
| `PrCleanup.CountsMatch` | script/github-pr-cleanup.py:344-363 | the two reported numbers are those of the warnings and of the closes among the effects |
| `PrCleanup.LatestIsFirst` | script/github-pr-cleanup.py:218-223 | of transitions at the same time the first one counts |
| `PrHistory.StepKeepsInvariant` | script/github-pr-cleanup.py:344-363 | every event keeps the invariant that ties marker comments, runs in progress and closes together |
| `PrHistory.EveryCloseIsJustified` | script/github-pr-cleanup.py:258-363 | in every history with crashes anywhere, a stale-draft close rests on a warning that was seven days old, posted by a run that saw 21 quiet days |
| `PrSafety.ViewShowsActivity` | script/github-pr-cleanup.py:201-233 | the last twenty transitions suffice: an open draft's activity is seen as the last commit's own time shows it, too late exactly when that time lies after the activity |
| `PrSafety.StaleIff` | script/github-pr-cleanup.py:210-255 | a pull request is stale if and only if it is an open draft with 21 days behind the activity that can be seen |
| `PrRuns.NothingDue` | script/github-pr-cleanup.py:249-255 | an undisturbed run leaves a pull request alone that is not stale |
| `PrRuns.Warns` | script/github-pr-cleanup.py:258-363 | on a stale draft without markers since the activity it posts a warning and nothing else |
| `PrRuns.Waits` | script/github-pr-cleanup.py:258-363 | while a warning is younger than seven days it can do nothing |
| `PrRuns.Closes` | script/github-pr-cleanup.py:258-363 | when all warnings are seven days old it posts an explanation and closes |
| `PrRuns.FinishesClose` | script/github-pr-cleanup.py:258-363 | after an explanation it only closes |
| `PrSafety.AtMostOneCommentPerEpoch` | script/github-pr-cleanup.py:236-270 | in every history, whatever times commits carry, at most one warning and one explanation are posted since the last activity or the time on the last commit, whichever is later |
| `PrSafety.AtMostOneSinceActivity` | script/github-pr-cleanup.py:236-270 | since the last activity itself, if no commit is dated later than its push |
| `PrSafety.RepeatsIff` | script/github-pr-cleanup.py:236-270 | in every history, a comment repeats one of its kind since the last activity exactly when such a one lies before the activity that the run saw |
| `PrExact.CommitAheadWarnsTwice` | script/github-pr-cleanup.py:201-207 | from a new draft: a commit dated 59 seconds ahead and pushed during a run leads to two warnings since the last activity |
| `PrExact.ProperlyWarnedIff` | script/github-pr-cleanup.py:201-363 | for every close, whatever times commits carry: there is a warning at least seven days old, posted at least 21 days after the last activity and so followed by none, if and only if the closing run saw what the last commit and conversion show of that activity, so did the run of a warning, and they show it in full or the warning came 21 days after it; comments follow their snapshot within 21 days |
| `PrExact.HonestlyWarnedIff` | script/github-pr-cleanup.py:258-363 | when commits carry their push time: if and only if both runs saw the last activity |
| `PrExact.NotOvertakenIsEnough` | script/github-pr-cleanup.py:201-363 | the half that the safety needs holds in every history, for all commit times and run lengths |
| `PrSafety.NoCloseWithoutProperWarning` | script/github-pr-cleanup.py:258-363 | in particular, if commits carry their push time and nothing happens during a run, every close is properly warned |
| `PrSafety.CloseSeesLastActivity` | script/github-pr-cleanup.py:226-233 | the activity that such a close saw is the real one at that moment |
| `PrExact.OldCommitDoesNotCount` | script/github-pr-cleanup.py:201-207 | from a new draft: an old commit pushed a week after the warning does not save the draft, since only its commit time is seen |
| `PrExact.RaceWarnsTooEarly` | script/github-pr-cleanup.py:344-363 | from a new draft: a push between the snapshot and the comment of a run is followed by a warning two seconds later and a close three weeks after it |
| `ClaCleanup.RetryOrCloseUnsigned` | script/github-pr-cleanup.py:323-341 | the loop posts and closes exactly what the decisions say and counts the closes; a dry run does nothing |
| `ClaCleanup.DecisionIsJustified` | script/github-pr-cleanup.py:298-310 | for a silent author: a re-check iff none was requested; a close iff all re-checks are a day old, with an explanation iff there is none; otherwise nothing |
| `ClaCleanup.EffectsIff` | script/github-pr-cleanup.py:277-341 | the effects on one pull request, each with its exact occasion in days and comments |
| `ClaCleanup.ClosesMatch` | script/github-pr-cleanup.py:323-341 | the reported number is that of the closes among the effects |
| `ClaCleanup.FollowUpIff` | script/github-pr-cleanup.py:313-320 | whom the pass is about: users with a login who have not signed, seven days after opening |
| `ClaHistory.RunDoesWhatIsDue` | script/github-pr-cleanup.py:298-341 | one undisturbed run from any state does what is due, and nothing else |
| `ClaHistory.EveryCloseIsJustified` | script/github-pr-cleanup.py:298-341 | in every history a close follows a re-check at least a day old that was requested after seven days, and an explanation, with an author silent until the comments were fetched; both comments are posted at most once |
| `ClaHistory.SpeakingStopsTheBot` | script/github-pr-cleanup.py:277-300 | after the author has spoken, runs post and close nothing |
| `ClaHistory.ReopenedIsClosedAgain` | script/github-pr-cleanup.py:305-310 | a pull request that was closed and reopened is closed again by the next run without a comment, unless the author speaks or signs |
| `GuildSweep.ScanComments` | script/github-guild-board.py:622-635 | one pass finds the assignee's last activity and the last check-in |
| `GuildSweep.LastActivitySpec` | script/github-guild-board.py:626-635 | the last activity is the assignment or the latest comment of the assignee, whichever is later |
| `GuildSweep.LatestAssignmentSpec` | script/github-guild-board.py:172-186 | the latest assignment of the user, an error when there is none |
| `GuildSweep.DecisionIsJustified` | script/github-guild-board.py:637-655 | a check-in iff none followed the last activity and that is 14 days old; a clear iff one followed it and all are 7 days old |
| `GuildSweep.SweepItem` | script/github-guild-board.py:595-674 | one turn of the loop with all its skips, effects and the error |
| `GuildSweep.RunStale` | script/github-guild-board.py:591-677 | the sweep performs the effects of all items in order, up to the first one without an assignment event, and counts check-ins and clears |
| `GuildLaws.EffectsIff` | script/github-guild-board.py:595-674 | the effects on one item, each with its exact occasion in days, comments and assignments |
| `GuildLaws.CountsMatch` | script/github-guild-board.py:591-677 | the two reported numbers are those of the check-ins and of the removals among the effects |
| `GuildLaws.EffectsInOrder` | script/github-guild-board.py:591-677 | the effects of the items come in the order of the items |
| `GuildRuns.RunChecksIn` | script/github-guild-board.py:595-674 | one undisturbed run from any state asks an assignee who has been silent for 14 days |
| `GuildRuns.RunClears` | script/github-guild-board.py:595-674 | it removes an assignee who has not answered for seven days |
| `GuildRuns.RunWaits` | script/github-guild-board.py:595-674 | otherwise it can do neither |
| `GuildRuns.NothingListed` | script/github-guild-board.py:595-612 | a paused issue, or one without an assignee, is not listed |
| `GuildHistory.StepKeepsInvariant` | script/github-guild-board.py:591-677 | every event keeps the invariant that ties check-ins, runs in progress and clears together |
| `GuildHistory.EveryClearIsJustified` | script/github-guild-board.py:637-657 | in every history a clear rests on a check-in seven days old that no activity seen by the run followed, posted by a run that saw 14 quiet days |
| `GuildHistory.ActiveBetweenCheckIns` | script/github-guild-board.py:622-637 | between two check-ins the one who is asked again was active |
| `GuildExact.ProperlyNudgedIff` | script/github-guild-board.py:617-657 | for every clear: there is a check-in to the assignee at least seven days old that came at least 14 days after their last activity, if and only if the clearing run saw that activity and so did the run of a check-in to them; check-ins follow the fetched comments within 14 days |
| `GuildExact.SeenIsEnough` | script/github-guild-board.py:617-657 | the half that the safety needs holds for runs of any length: if the clearing run and the run of a check-in saw the assignee's real last activity, the check-in was a proper one |
| `GuildSafety.NoClearWithoutProperCheckIn` | script/github-guild-board.py:617-657 | in particular, if the assignee is silent during each run, every clear follows a proper check-in |
| `GuildExact.ReplyDuringRunIsLost` | script/github-guild-board.py:617-657 | from a new issue: a reply between fetching and posting is followed by a check-in two seconds later, which a week later counts for a clear |
| `StableSort.SortSpec` | script/github-check-new-issue-for-duplicates.py:522 | descending by key, a permutation, and stable: what `sorted(..., reverse=True)` promises |
| `Decimals.ValueOfDecimal` | script/github-check-new-issue-for-duplicates.py:506-508 | printing and reading a decimal number |
| `MagnetText.EntryRoundTrip` | script/github-check-new-issue-for-duplicates.py:505-510 | a printed entry is read back with its count, padded or not, and its number |
| `MagnetText.ParseIntIff` | script/github-check-new-issue-for-duplicates.py:505-510 | an integer is read exactly from ASCII digits with single underscores between them and at most one sign |
| `MagnetText.SpacesAre` | script/github-check-new-issue-for-duplicates.py:495-510 | the white space that is stripped, character by character |
| `Magnets.Tally.Add` | script/github-find-top-duplicated-bugs.py:154-158 | one listing joins the list and the total of its area, in insertion order |
| `Magnets.Group` | script/github-find-top-duplicated-bugs.py:152-158 | the nested loop groups all listings |
| `Magnets.BuildMarkdownBody` | script/github-find-top-duplicated-bugs.py:148-178 | the body is the introduction, any line that is read as neither a header nor an entry, and one section for each area, joined by line feeds |
| `Magnets.ParseDuplicateMagnets` | script/github-check-new-issue-for-duplicates.py:487-524 | the loop over the lines with all its skips computes the records, the most duplicated first |
| `MagnetTrip.NothingBeforeHeader` | script/github-check-new-issue-for-duplicates.py:487-500 | lines before the first header leave nothing |
| `MagnetTrip.OtherLinesAreSkipped` | script/github-check-new-issue-for-duplicates.py:487-510 | a line that starts with neither a header nor a dash, or that names no issue, is skipped |
| `MagnetTrip.MostDuplicatedFirst` | script/github-find-top-duplicated-bugs.py:165-176 | sections are ordered by the duplicates of their area, entries by their own, and every listing is printed once |
| `MagnetTrip.MagnetsComeBack` | script/github-check-new-issue-for-duplicates.py:487-524 | exactly the magnets with an area that is not blank come back, each once, with number, count and the stripped areas, `(unlabeled)` and blank ones left out, the most duplicated first |
| `MagnetTrip.RoundTripIff` | script/github-find-top-duplicated-bugs.py:148-178 | all magnets come back exactly, `(unlabeled)` meaning no area, if and only if no area is empty or has white space around it |
| `SearchCandidates.SelectSearchCandidates` | script/github-check-new-issue-for-duplicates.py:613-638 | the loops over channels and candidates compute the selection |
| `SearchCandidates.SelectionIsFull` | script/github-check-new-issue-for-duplicates.py:613-638 | for every list and limit no key is selected twice, and as many are selected as there are keys, up to the limit |
| `SearchCandidates.SelectionIsBeginning` | script/github-check-new-issue-for-duplicates.py:613-638 | the selection is the beginning, without repeated keys, of the matches of the five channels, each up to its share, followed by all candidates |
| `SearchCandidates.QuotasFit` | script/github-check-new-issue-for-duplicates.py:617-623 | the five quotas fit into the limit, despite their floors and divisions, if and only if it is at least six |
| `SearchCandidates.ChannelKeepsQuota` | script/github-check-new-issue-for-duplicates.py:630-633 | with a limit of at least six the first matches of every channel, up to its quota, are selected |
| `SearchCandidates.QuotasAreKeptIff` | script/github-check-new-issue-for-duplicates.py:613-638 | the quotas of all channels are kept for every list if and only if the limit is at least six |
| `SearchCandidates.FewPlacesLoseAChannel` | script/github-check-new-issue-for-duplicates.py:613-638 | a list of six candidates that loses a channel for every smaller limit |
| `ExcerptRanges.PendingDiff.ExcerptRanges` | crates/acp_thread/src/diff.rs:340-376 | the nested merging loops compute the merged ranges of hunks and revealed ranges |
| `ExcerptRanges.ExcerptsCoverExactly` | crates/acp_thread/src/diff.rs:340-376 | the excerpts are sorted with strict gaps, cover exactly the points of all ranges, with or without their ends, and use only their endpoints |
| `ExcerptRanges.ExcerptsIgnoreOrder` | crates/acp_thread/src/diff.rs:359 | the order of the input does not matter, although the sort is unstable |
| `ExcerptRanges.ExcerptsAreStable` | crates/acp_thread/src/diff.rs:340-376 | merging the excerpts of any list again changes nothing |
| `SkillNames.SlugifySkillName` | crates/agent_skills/agent_skills.rs:450-490 | the character loop with its dash flag, the trimming and the truncation compute the slug |
| `SkillNames.SlugIsValidName` | crates/agent_skills/agent_skills.rs:450-527 | every slug passes the validator, also after truncation at 64 |
| `SkillNames.SlugifyIsIdempotent` | crates/agent_skills/agent_skills.rs:450-490 | a slug is its own slug |
| `SkillNames.FixedPointIff` | crates/agent_skills/agent_skills.rs:450-527 | a valid name is its own slug if and only if it has no double dash |
| `SkillNames.SlugExistsIff` | crates/agent_skills/agent_skills.rs:450-490 | there is a slug if and only if the input has an ASCII letter, a digit or an ampersand |
| `SkillNames.SlugIsWords` | crates/agent_skills/agent_skills.rs:427-490 | the slug is the words of the input, between spaces, dashes and ampersands (each one the word `and`), reduced to letters and digits in lower case and joined by dashes, up to 64 characters without a dash at the end |
| `SkillNames.ValidateIff` | crates/agent_skills/agent_skills.rs:492-527 | what a valid name is, character by character, and which error each other one has |
| `Frontmatter.FindCandidates` | crates/agent_skills/agent_skills.rs:343-413 | the scan for line feeds collects the ends of closers |
| `Frontmatter.CandidatesAreLineClosers` | crates/agent_skills/agent_skills.rs:343-413 | the candidates are exactly the ends of the lines `---` after the first one, ended by LF, CRLF or the end of the file, in order |
| `Frontmatter.ExtractFrontmatter` | crates/agent_skills/agent_skills.rs:343-413 | the metadata and the body after the first closer whose prefix parses, prefix and body making up the trimmed content; otherwise the right one of three errors |
| `Frontmatter.LastRejectionSpec` | crates/agent_skills/agent_skills.rs:343-413 | the reported error is that of the last candidate that was rejected |
| `Frontmatter.TrimStartSpec` | crates/agent_skills/agent_skills.rs:343-350 | what is trimmed is white space, character by character, and nothing of it is left |
| `TriageBoard.WindowsTileTheCalendar` | script/github-triage-queue-board.py:87-100 | an issue is eligible exactly from its first day to the Sunday of one week |
| `TriageBoard.EveryDayHasOneWeek` | script/github-triage-queue-board.py:87-100 | every creation day is eligible in exactly one week, which holds Thursday to Wednesday, all of them on Friday |
| `TriageBoard.StaysUntilSunday` | script/github-triage-queue-board.py:87-100 | an eligible issue stays eligible until Sunday |
| `TriageBoard.FullDayBetween` | script/github-triage-queue-board.py:96-99 | a full business day lies strictly between the creation and the evaluation |
| `TriageBoard.EligibleIff` | script/github-triage-queue-board.py:87-100 | up to the end of its week an issue is eligible if and only if a full business day has passed since its work day, which is the Monday after for an issue of the weekend |
| `TriageBoard.PromiseIsKeptIff` | script/github-triage-queue-board.py:96-99 | eligibility agrees with the promised full business day since the creation on every day up to the end of the week, except for issues of a weekend on the Tuesday after it |
| `TriageBoard.WeekendWaitsLonger` | script/github-triage-queue-board.py:96-99 | on that Tuesday an issue of the weekend is not eligible although Monday lies between |
| `TriageBoard.Board.Sync` | script/github-triage-queue-board.py:182-201 | the two loops leave the board with the kept items and the missing issues, or as it was on a dry run |
| `TriageBoard.BoardShowsEligible` | script/github-triage-queue-board.py:182-201 | after a run the issues on the board are the eligible ones, and drafts and pull requests are untouched |
| `TriageBoard.RerunDoesNothing` | script/github-triage-queue-board.py:182-201 | a second run with the same issues changes nothing |

## Assumptions

- Bit strings are sequences of Booleans, where the source uses strings of `0` and `1`.
- In the mention, path and skill name modules a string holds UTF-8 bytes, one character each. Whether bytes are valid
  UTF-8 is a parameter `utf8` of the parsers.
- The `url` crate is modelled by what mentions need of it: splitting a serialized URL, the path setter
  (stripped controls, dot segments, drive letters, leading slashes, percent-encoding) and query pairs.
- `u32` additions wrap around, as in a release build.
- GitHub, WPR, the socket, dialogs, the clock and the YAML parser appear as parameters or as arbitrary
  outcomes. Runs of a bot are serial, event times on a server increase strictly, and only the bot writes
  its markers. A commit carries any time, before or after its push.
- An issue belongs to the calendar day of its creation in the business time zone.
- The two halves of a connection share one socket, which closes when the last half is dropped
  (`crates/net/src/stream.rs:40-43`, `crates/net/src/socket.rs:55-59`).
- Where documentation and code differ, the model follows the code: the triage comment promises eligibility
  after one full business day, while an issue created on a weekend is not yet eligible on Tuesday.

## Left out

- TcfSegments.EncodeConsentString: does not model the preparation of the model before encoding (consent screen defaults and vendor list lookups), which reads the downloaded vendor list.
- TcfVector.Vector.Unset: does not model ids that are strings, for which the original can keep a stale largest id; ids are numbers here.
- TcfVendors.DecodeVendorVector: version 1 strings are decoded as the code does it, but have no round trip, since the encoder never writes the default-consent bit that the decoder expects.
- TcfRestrictions.EncodeRestrictionVector: requires positive vendor ids, because the original takes a range start of 0 for no open range; vendor lists number their vendors from 1.
- TcfRestrictions.EncodeSpans: requires positive vendor ids, for the same reason.
- TcfRestrictions.PurposeRestrictionVector.Add: the hash strings of the keys are a datatype, and attaching a vendor list later, removing restrictions and whole-purpose restrictions are not modelled.
- TcfSegments.DecodeTcSegment: an id vector inside the consent model is a value, so sharing one vector between two models is not captured.
- UrlModel.ParseUrlOfSerialize: covers URLs as the crate serializes them; the normalisation of other hosts and paths while parsing is not modelled.
- MentionTrip.MentionRoundTripIff: on Windows a path is assumed to be absolute.
- Mention.ParseSkill: one loop of the parser; bare paths and line ranges behind them are recognised, but their `path:line:column` suffix is not parsed, and the hyperlink parser for agent-written Markdown is not part of this model.
- EtwRecorder.RecordEtwTrace: building the profiles is one call that may fail; in the system of several sessions, a recorder whose first Cancel ends the session of another one is not modelled.
- EtwStarts.SecondClickLosesASession: two launches use one socket path, so that a recorder may connect to the other launch's listener; a session is the pair of a task and whichever recorder it accepted.
- EtwSystem.ProtocolSafety: liveness is not claimed; a recorder may wait for its command forever.
- PrExact.ProperlyWarnedIff: one pull request at a time, and not the interplay with closes by the other pass beyond their effect on the open state; a run takes less than 21 days from its snapshot to its comment.
- GuildHistory.EveryClearIsJustified: the hold label, linked pull requests and the board column are one flag that is read when a run lists the issue.
- Magnets.BuildMarkdownBody: the collection of magnets from the issue timeline is not modelled; the address of an issue is assumed to be the one of this repository.
- MagnetText.EntryRoundTrip: reading integers covers ASCII digits, signs and underscores, not other Unicode digits.
- SearchCandidates.SelectionIsFull: ranking and merging of candidates before the selection are not modelled.
- Frontmatter.ExtractFrontmatter: positions count characters, where the source counts bytes; YAML parsing is an arbitrary function.
- ExcerptRanges.PendingDiff.ExcerptRanges: buffers, anchors and the update of the visible ranges are left out; hunks arrive as ranges of points.
- TriageBoard.Board.Sync: the search that yields the eligible issues, which stops after a thousand results, is a parameter; daylight saving and time zones are left out.
- The rest of the bundle: translations, script injection, request patching, vendor list download and the consent store are browser effects.
- Other handlers of the guild script: assignments, pull requests, replies and weekly summaries act on single events and keep no history.
- `connection.rs`, prompt texts, build scripts and documentation scripts have no property of this kind.
