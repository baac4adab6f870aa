/**
 The audit prompt sent to the language model: `build_prompt`.

 Reading a file is the input: each selected path comes with the text
 `read_text` returned for it, or `None` when reading raised.
 */
module Prompt {

  import opened Wrappers
  import opened Paths
  import opened Filtering

  /** `max_chars`: the most characters the file excerpts may take together. */
  const MaxChars := 15000

  /** The most characters of one file's text that go into the prompt. */
  const MaxSnippet := 2000

  /** A selected file and the outcome of reading it. */
  datatype SourceRead = SourceRead(path: Path, content: Option<string>)

  /** The opening sentence of the instructions. */
  const Opening := "You are an expert security auditor and software engineer. Perform a deep audit of the following repository:\n"

  /** The request and the answer format, after the repository and branch lines. */
  const Request :=
    "Identify vulnerabilities, bugs, and performance issues. "
    + "CRITICAL: Return the answer in STRICT JSON format with an 'issues' array.\n"
    + "Schema: {\"issues\": [{\"file\":\"path/to/file\",\"line\":42,\"type\":\"security|bug|quality\",\"msg\":\"...\",\"severity\":\"CRITICAL|HIGH|MEDIUM|LOW\"}]}\n"

  /** The fixed instructions naming the repository and branch under audit. */
  function Template(repoUrl: string, branch: string): string
  {
    Opening + "- URL: " + repoUrl + "\n" + "- Branch: " + branch + "\n" + Request
  }

  /** `content[:2000]`: the first characters of a file's text. */
  function Snippet(text: string): (r: string)
    ensures r <= text
    ensures |r| == if |text| <= MaxSnippet then |text| else MaxSnippet
  {
    if |text| <= MaxSnippet then text else text[..MaxSnippet]
  }

  /** The labelled excerpt of one file: a header line naming it, its snippet, a newline. */
  function Part(path: Path, text: string): string
  {
    "\n--- " + Rel(path) + " ---\n" + Snippet(text) + "\n"
  }

  predicate Readable(f: SourceRead)
  {
    f.content.Some?
  }

  /** The excerpt of a file that was read. */
  function PartOf(f: SourceRead): string
  {
    match f.content
    case Some(text) => Part(f.path, text)
    case None => ""
  }

  /** The excerpt of every readable file, in file order; unreadable files contribute nothing. */
  function Parts(files: seq<SourceRead>): seq<string>
  {
    var readable := Filter(files, Readable);
    seq(|readable|, j requires 0 <= j < |readable| => PartOf(readable[j]))
  }

  /** The excerpts written one after another. */
  function Concat(ps: seq<string>): string
  {
    if ps == [] then "" else Concat(ps[..|ps| - 1]) + ps[|ps| - 1]
  }

  /**
   How many leading excerpts fit the budget when they are added in order
   and adding stops at the first one that would not fit: the first `k`
   fit together, and either none is left or the next one overflows.
   */
  function Admitted(ps: seq<string>): (k: nat)
    ensures k <= |ps|
    ensures |Concat(ps[..k])| <= MaxChars
    ensures k < |ps| ==> |Concat(ps[..k + 1])| > MaxChars
  {
    if ps == [] then 0
    else
      var init := ps[..|ps| - 1];
      var k := Admitted(init);
      assert ps[..k] == init[..k];
      if k < |init| then
        assert ps[..k + 1] == init[..k + 1];
        k
      else if |Concat(ps)| <= MaxChars then
        assert ps[..|ps|] == ps;
        |ps|
      else
        assert ps[..k + 1] == ps;
        k
  }

  /**
   The body of the prompt: the excerpts admitted by the budget. It never
   exceeds `MaxChars` and is a prefix of all the excerpts written out, so
   no excerpt is reordered and none after a rejected one is added.
   */
  function Body(files: seq<SourceRead>): (r: string)
    ensures |r| <= MaxChars
    ensures r <= Concat(Parts(files))
  {
    var ps := Parts(files);
    var k := Admitted(ps);
    ConcatPrefix(ps, k, |ps|);
    assert ps[..|ps|] == ps;
    Concat(ps[..k])
  }

  /**
   Adding stops at the first excerpt that would overflow: every admitted
   excerpt fitted when it was added to those before it, and when some
   excerpt is left out, the first one left out would have taken the
   admitted ones past `MaxChars`.
   */
  lemma AdmittedStopsAtFirstOverflow(ps: seq<string>)
    ensures forall j :: 0 <= j < Admitted(ps) ==> |Concat(ps[..j])| + |ps[j]| <= MaxChars
    ensures Admitted(ps) < |ps| ==> |Concat(ps[..Admitted(ps)])| + |ps[Admitted(ps)]| > MaxChars
  {
    var k := Admitted(ps);
    if k < |ps| {
      ConcatPrefixStep(ps, k);
    }
    forall j | 0 <= j < k
      ensures |Concat(ps[..j])| + |ps[j]| <= MaxChars
    {
      ConcatPrefixStep(ps, j);
      ConcatPrefix(ps, j + 1, k);
    }
  }

  /** Writing out one more leading excerpt appends it. */
  lemma ConcatPrefixStep(ps: seq<string>, j: nat)
    requires j < |ps|
    ensures Concat(ps[..j + 1]) == Concat(ps[..j]) + ps[j]
  {
    assert ps[..j + 1] == ps[..j] + [ps[j]];
    ConcatStep(ps[..j], ps[j]);
  }

  /**
   The excerpts are those of the readable files, in file order: the j-th
   excerpt is that of the file at the j-th readable position, the
   positions increase, and a file has a position exactly when it was read.
   */
  lemma PartsFollowReadableFiles(files: seq<SourceRead>)
    ensures |Parts(files)| == |Positions(files, Readable)|
    ensures forall j :: 0 <= j < |Parts(files)| ==>
      Positions(files, Readable)[j] < |files| && Parts(files)[j] == PartOf(files[Positions(files, Readable)[j]])
    ensures forall j, k :: 0 <= j < k < |Positions(files, Readable)| ==>
      Positions(files, Readable)[j] < Positions(files, Readable)[k]
    ensures forall i :: 0 <= i < |files| ==> (files[i].content.Some? <==> i in Positions(files, Readable))
  {
    FilterAtPositions(files, Readable);
    PositionsIncrease(files, Readable);
    PositionsExact(files, Readable);
  }

  /**
   One file's excerpt carries at most its first `MaxSnippet` characters:
   between the header line and the closing newline stands the text's first
   characters, the whole text when it is short enough.
   */
  lemma PartCarriesSnippet(path: Path, text: string)
    ensures var r := Part(path, text); var h := |Rel(path)| + 10;
      |r| == h + 1 + |Snippet(text)| && |r| <= h + 1 + MaxSnippet &&
      r[..h] == "\n--- " + Rel(path) + " ---\n" &&
      r[h..|r| - 1] == text[..|Snippet(text)|] &&
      r[|r| - 1] == '\n' &&
      (|text| <= MaxSnippet ==> r[h..|r| - 1] == text)
  {
    var r := Part(path, text);
    var h := |Rel(path)| + 10;
    assert r[h..|r| - 1] == Snippet(text);
  }

  /**
   `build_prompt`: the instructions (after the caller's prefix line, when
   a non-empty prefix is given), a newline, then the excerpts of the
   readable files in order for as long as they fit in `MaxChars`.
   */
  method BuildPrompt(files: seq<SourceRead>, repoUrl: string, branch: string, prefix: Option<string>)
    returns (prompt: string)
    ensures prefix.Some? && prefix.value != "" ==>
      prompt == prefix.value + "\n" + Template(repoUrl, branch) + "\n" + Body(files)
    ensures prefix.None? || prefix.value == "" ==>
      prompt == Template(repoUrl, branch) + "\n" + Body(files)
  {
    var template := Template(repoUrl, branch);
    var intro := template;
    if prefix.Some? && prefix.value != "" {
      intro := prefix.value + "\n" + intro;
    }
    var body := AssembleBody(files);
    prompt := intro + "\n" + body;
  }

  /**
   The loop of `build_prompt`: for each file in order, skip it when it
   could not be read, stop at the first excerpt that would take the body
   past `MaxChars`, and otherwise append the excerpt.
   */
  method AssembleBody(files: seq<SourceRead>) returns (body: string)
    ensures body == Body(files)
  {
    ghost var stopped := false;
    body := "";
    for i := 0 to |files|
      invariant !stopped
      invariant body == Concat(Parts(files[..i]))
      invariant |body| <= MaxChars
    {
      var f := files[i];
      if f.content.None? {
        PartsStep(files, i);
        continue;
      }
      var snippet := Snippet(f.content.value);
      var part := "\n--- " + Rel(f.path) + " ---\n" + snippet + "\n";
      assert part == PartOf(f);
      if |body| + |part| > MaxChars {
        PartsPrefix(files, i + 1);
        PartsStep(files, i);
        OverflowAfter(Parts(files), Parts(files[..i]), part);
        stopped := true;
        break;
      }
      AppendStep(files, i);
      body := body + part;
    }
    if !stopped {
      assert files[..|files|] == files;
      AllPartsFit(files);
    }
  }

  /** Visiting one more file adds its excerpt when it was read, and nothing when it was not. */
  lemma PartsStep(files: seq<SourceRead>, i: nat)
    requires i < |files|
    ensures Readable(files[i]) ==> Parts(files[..i + 1]) == Parts(files[..i]) + [PartOf(files[i])]
    ensures !Readable(files[i]) ==> Parts(files[..i + 1]) == Parts(files[..i])
  {
    assert files[..i + 1][..i] == files[..i];
  }

  /** Appending the excerpt of a file that was read extends the written-out excerpts by it. */
  lemma AppendStep(files: seq<SourceRead>, i: nat)
    requires i < |files| && Readable(files[i])
    ensures Concat(Parts(files[..i + 1])) == Concat(Parts(files[..i])) + PartOf(files[i])
  {
    PartsStep(files, i);
    ConcatStep(Parts(files[..i]), PartOf(files[i]));
  }

  /** Leading excerpts that fit, followed by one that would overflow, are exactly the admitted ones. */
  lemma OverflowAfter(ps: seq<string>, done: seq<string>, p: string)
    requires done + [p] <= ps
    requires |Concat(done)| <= MaxChars
    requires |Concat(done)| + |p| > MaxChars
    ensures Concat(ps[..Admitted(ps)]) == Concat(done)
  {
    var k := |done|;
    assert ps[..k] == done;
    assert ps[..k + 1] == done + [p];
    ConcatStep(done, p);
    AdmittedUnique(ps, k);
  }

  /** When all excerpts fit together, the body is all of them. */
  lemma AllPartsFit(files: seq<SourceRead>)
    requires |Concat(Parts(files))| <= MaxChars
    ensures Body(files) == Concat(Parts(files))
  {
    var ps := Parts(files);
    assert ps[..|ps|] == ps;
    AdmittedUnique(ps, |ps|);
  }

  /** Writing out one more excerpt appends it. */
  lemma ConcatStep(ps: seq<string>, p: string)
    ensures Concat(ps + [p]) == Concat(ps) + p
  {
    assert (ps + [p])[..|ps|] == ps;
  }

  /** The excerpts of the files read so far begin the excerpts of all files. */
  lemma PartsPrefix(files: seq<SourceRead>, i: nat)
    requires i <= |files|
    ensures Parts(files[..i]) <= Parts(files)
  {
    FilterPrefix(files, Readable, i);
  }

  /** Writing out fewer leading excerpts gives a prefix of writing out more. */
  lemma {:induction false} ConcatPrefix(ps: seq<string>, i: nat, j: nat)
    requires i <= j <= |ps|
    ensures Concat(ps[..i]) <= Concat(ps[..j])
  {
    if i < j {
      assert ps[..j][..j - 1] == ps[..j - 1];
      ConcatPrefix(ps, i, j - 1);
    }
  }

  /**
   The budget rule has one outcome: any count of leading excerpts that fit
   together and are followed by none or by one that overflows is the
   count `Admitted` gives.
   */
  lemma AdmittedUnique(ps: seq<string>, k: nat)
    requires k <= |ps|
    requires |Concat(ps[..k])| <= MaxChars
    requires k < |ps| ==> |Concat(ps[..k + 1])| > MaxChars
    ensures k == Admitted(ps)
  {
    var a := Admitted(ps);
    if k < a {
      ConcatPrefix(ps, k + 1, a);
    } else if a < k {
      ConcatPrefix(ps, a + 1, k);
    }
  }
}
