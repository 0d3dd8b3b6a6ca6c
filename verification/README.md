# linus.ai value layer in Dafny

This project models the value layer of the linus.ai code-review assistant,
the Rust file `src/types.rs`. It covers five pieces:

- the reviewer persona `ReviewMode` and its text codec: `as_str`, `description`, `Display` and `FromStr`;
- the pipeline status `AppStatus` and its `Display` text;
- the session record `AppState` and its constructor `AppState::new`;
- the review result `ReviewOutput` and its derived `Default`;
- the plain records `FileEntry`, `DependencyEdge` and `ReviewContext`, declared as datatypes only.

Modules:

- `RustPrelude`: the `Option` and `Result` sum types.
- `Text`: ASCII lowercasing and substring containment.
- `ReviewModes`: the persona codec.
- `Records`: the scanner, graph and review records.
- `AppStates`: the status display and the session record.

The rejection message echoes the lowercased input, not the original text
(src/types.rs:44-48), and so does `ReviewModes.FromStr`.

Everything is an immutable datatype with pure functions. Rust's `anyhow::Error` becomes a plain
string error payload. `usize` fields are `nat`. The `u16` scroll offset is a bounded newtype.

## Model

| member | source | states |
|---|---|---|
| Text.LowerChar | src/types.rs:44 | a lowercased character is never upper-case; an upper-case letter becomes the lower-case letter at the same place in the alphabet; every other character is kept |
| Text.Lower | src/types.rs:44 | lowercasing keeps the length, maps every character through LowerChar, and leaves no upper-case letter |
| Text.LowerFixesExactlyLowercase | src/types.rs:44 | lowercasing leaves a string unchanged exactly when it has no upper-case letter |
| Text.LowerIdempotent | src/types.rs:44 | lowercasing twice gives the same text as lowercasing once |
| ReviewModes.AsStr | src/types.rs:17-23 | every identifier is non-empty and already lowercase |
| ReviewModes.AsStrInjective | src/types.rs:17-23 | two personas have the same identifier exactly when they are the same persona |
| ReviewModes.Description | src/types.rs:25-31 | every description is non-empty and differs from the persona's identifier |
| ReviewModes.DescriptionInjective | src/types.rs:25-31 | two personas have the same description exactly when they are the same persona |
| ReviewModes.Display | src/types.rs:34-38 | the display text is the identifier, and it parses back to the same persona |
| ReviewModes.UnknownModeMessage | src/types.rs:48 | the message starts with "Unknown review mode: '", and has the echoed text right after that prefix |
| ReviewModes.MessageDeterminesEcho | src/types.rs:48 | two rejection messages are equal exactly when they echo the same text |
| ReviewModes.FromStr | src/types.rs:43-50 | an accepted input lowercases to the persona's identifier; a rejected one gets the message built from the lowercased input |
| ReviewModes.ParseExactly | src/types.rs:44-47 | the parse yields persona m if and only if the lowercased input equals m's identifier |
| ReviewModes.RoundTrip | src/types.rs:43-47 | parsing any persona's identifier returns that persona |
| ReviewModes.CaseInsensitive | src/types.rs:44 | the parse of a text equals the parse of its lowercase form |
| ReviewModes.HintNames | src/types.rs:48 | the part of the rejection message after the echoed text contains every persona's identifier |
| ReviewModes.MessageNamesChoices | src/types.rs:48 | the rejection message contains the text it echoes and every persona's identifier |
| ReviewModes.Rejection | src/types.rs:44-48 | an input whose lowercase form is no identifier is rejected; the message echoes the lowercased input and names all three choices |
| ReviewModes.UppercaseAccepted | src/types.rs:44-47 | "HARDCORE" parses to Hardcore |
| ReviewModes.UnknownWordRejected | src/types.rs:48 | "chill" is rejected; the message contains "chill", "calm", "informative" and "hardcore" |
| Records.DefaultReviewOutput | src/types.rs:83-91 | the default review output has all six fields empty, raw included |
| Records.DefaultIsOnlyBlank | src/types.rs:83-91 | a review output has all fields empty exactly when it is the default |
| AppStates.StatusText | src/types.rs:104-115 | an error status's text is "Error: " followed by the error message unchanged; every text is non-empty |
| AppStates.ErrorPrefixMarksErrors | src/types.rs:106-113 | a status text starts with "Error: " exactly when the status is an error |
| AppStates.StatusTextInjective | src/types.rs:106-113 | two statuses display the same text exactly when they are equal, so distinct error messages display distinctly |
| AppStates.NewAppState | src/types.rs:130-141 | a new session is idle with no context, no output, zero scroll, no model list and index 0; it keeps the given model and persona, and its status shows "Ready" |
| AppStates.InitialIsNew | src/types.rs:130-141 | a session has those initial field values exactly when it equals the new session for its own model and persona |

## Left out

- Text.Lower: models Rust's `to_lowercase` as ASCII lowercasing, not full Unicode. The set of accepted inputs is the same either way. The only non-ASCII character whose Unicode lowercase is an ASCII letter is the Kelvin sign, which lowercases to `k`, and no identifier contains `k`. What differs is the echoed text in the rejection message for non-ASCII input.
- Serde `Serialize`/`Deserialize` derives: the encoding belongs to an external library, so no serialisation round trip is stated.
- `FileEntry`, `DependencyEdge` and `ReviewContext` are declared without invariants. `src/types.rs` enforces none, so nothing is assumed about the ordering of top files, the sorting of the language histogram or the shape of cycles.
- Cycle detection, context assembly and the Idle → Scanning → BuildingGraph → QueryingOllama → Done/Error transition discipline are not part of this model. No code for them appears in `src/types.rs`; every `AppState` field is public and no transition function exists there.
- Rendering of the terminal UI, the scroll offset beyond its initial value, and querying the model server are I/O.
- `Debug`, `Clone`, `PartialEq` and `Eq` derives: Dafny datatypes already have value equality and copying.
