/**
 * The plain records the scanner, the dependency extractor and the model
 * query produce. They carry no behaviour beyond the default review output.
 */
module Records {
  import opened ReviewModes

  /** A file reported by the scanner. */
  datatype FileEntry = FileEntry(path: string, lines: nat, language: string)

  /** A directed dependency between two scanned files. */
  datatype DependencyEdge = DependencyEdge(from: string, to: string)

  /** The snapshot handed to the prompt builder. */
  datatype ReviewContext = ReviewContext(
    totalFiles: nat,
    totalLines: nat,
    topFiles: seq<FileEntry>,
    largeFiles: seq<FileEntry>,
    languages: seq<(string, nat)>,
    circularDeps: seq<seq<string>>,
    dependencyEdges: seq<DependencyEdge>,
    mode: ReviewMode,
    model: string)

  /** The sections of a finished review, plus the unparsed response. */
  datatype ReviewOutput = ReviewOutput(
    architecture: string,
    performance: string,
    security: string,
    codeSmells: string,
    structuralImprovements: string,
    raw: string)

  /** The six text fields of a review output, in declaration order. */
  function Fields(o: ReviewOutput): seq<string> {
    [o.architecture, o.performance, o.security, o.codeSmells, o.structuralImprovements, o.raw]
  }

  /** No field of the review output holds any text. */
  predicate IsBlank(o: ReviewOutput) {
    forall i :: 0 <= i < |Fields(o)| ==> Fields(o)[i] == ""
  }

  /** The derived `Default` of a review output. */
  function DefaultReviewOutput(): (r: ReviewOutput)
    ensures IsBlank(r)
    ensures r.raw == ""
  {
    ReviewOutput("", "", "", "", "", "")
  }

  /** The default is the one review output with every field empty. */
  lemma DefaultIsOnlyBlank(o: ReviewOutput)
    ensures IsBlank(o) <==> o == DefaultReviewOutput()
  {
    if IsBlank(o) {
      assert Fields(o)[0] == "" && Fields(o)[1] == "" && Fields(o)[2] == "";
      assert Fields(o)[3] == "" && Fields(o)[4] == "" && Fields(o)[5] == "";
    }
  }
}
