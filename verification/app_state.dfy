/**
 * The pipeline status shown by the terminal UI, its display text, and the
 * session record the UI reads, with its constructor.
 */
module AppStates {
  import opened RustPrelude
  import opened ReviewModes
  import opened Records

  /** Rust's `u16`, the width of the scroll offset. */
  newtype u16 = x: int | 0 <= x < 0x1_0000

  datatype AppStatus =
    | Idle
    | Scanning
    | BuildingGraph
    | QueryingOllama
    | Done
    | Error(message: string)

  /** The text every error status starts with. */
  const ErrorPrefix: string := "Error: "

  /** The `Display` text of a status. */
  function StatusText(st: AppStatus): (r: string)
    ensures st.Error? ==> ErrorPrefix <= r && r[|ErrorPrefix|..] == st.message
    ensures |r| > 0
  {
    match st
    case Idle => "Ready"
    case Scanning => "Scanning repository..."
    case BuildingGraph => "Building dependency graph..."
    case QueryingOllama => "Querying Ollama..."
    case Done => "Review complete"
    case Error(e) => ErrorPrefix + e
  }

  /** The error prefix marks exactly the error statuses. */
  lemma ErrorPrefixMarksErrors(st: AppStatus)
    ensures st.Error? <==> ErrorPrefix <= StatusText(st)
  {
    match st
    case Idle =>
    case Scanning =>
      assert StatusText(st)[0] == 'S';
    case BuildingGraph =>
      assert StatusText(st)[0] == 'B';
    case QueryingOllama =>
      assert StatusText(st)[0] == 'Q';
    case Done =>
      assert StatusText(st)[0] == 'R';
    case Error(_) =>
  }

  /** Distinct statuses display distinctly; in particular distinct error
      messages give distinct texts. */
  lemma StatusTextInjective(a: AppStatus, b: AppStatus)
    ensures StatusText(a) == StatusText(b) <==> a == b
  {
    ErrorPrefixMarksErrors(a);
    ErrorPrefixMarksErrors(b);
  }

  /** The session record the UI reads. */
  datatype AppState = AppState(
    status: AppStatus,
    context: Option<ReviewContext>,
    output: Option<ReviewOutput>,
    scroll: u16,
    model: string,
    mode: ReviewMode,
    availableModels: seq<string>,
    selectedModelIdx: nat)

  /** A session that has not started a run: idle, with nothing scanned,
      nothing reviewed, nothing scrolled and no model list loaded. */
  predicate IsInitial(s: AppState) {
    && s.status == Idle
    && s.context == None
    && s.output == None
    && s.scroll == 0
    && s.availableModels == []
    && s.selectedModelIdx == 0
  }

  /** `AppState::new`: a fresh session for the given model and persona. */
  function NewAppState(model: string, mode: ReviewMode): (s: AppState)
    ensures IsInitial(s)
    ensures s.model == model && s.mode == mode
    ensures StatusText(s.status) == "Ready"
  {
    AppState(Idle, None, None, 0, model, mode, [], 0)
  }

  /** A session is initial exactly when it is the fresh session for its own
      model and persona. */
  lemma InitialIsNew(s: AppState)
    ensures IsInitial(s) <==> s == NewAppState(s.model, s.mode)
  {
  }
}
