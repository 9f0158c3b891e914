/**
 * `handle_approval`: the only path to the file write and the GitHub push.
 * The decision must upper-case to exactly "APPROVED"; the page is then the
 * extraction of the first SoftwareEngineer message whose extracted text is
 * longer than 50 characters; it is written locally, then pushed, and a
 * result message is built. The write and the push are recorded in an
 * effect log; the push's success is an input.
 */
module Approval {
  import opened PyStrings
  import opened Chat
  import opened HtmlFence
  import opened GitHubUrls

  const ApprovalToken: string := "APPROVED"

  /** An extracted page must be longer than this to count as generated code. */
  const MinArtifactLength: nat := 50

  const OutputFileName: string := "index.html"
  const DeployBranch: string := "main"

  /** What approval does outside the chat, in the order it does it. */
  datatype Effect = WriteLocal(path: string, contents: string) | PushToGitHub

  /**
   * The surroundings the approval step reads: the `GITHUB_REPO_URL`
   * setting, the resolved output file and the clock reading used as cache
   * buster.
   */
  datatype Deployment = Deployment(repoUrl: string, outputPath: string, cacheBuster: nat)

  /** The default and the `None` case both mean "APPROVED". */
  function DecisionText(userDecision: Option<string>): string {
    match userDecision
    case None => ApprovalToken
    case Some(d) => d
  }

  lemma UpperCharIsLetter(c: char, upper: char, lower: char)
    requires 'A' <= upper <= 'Z' && upper != 'I' && upper != 'S' && lower as int == upper as int + 32
    ensures UpperChar(c) == upper <==> c == upper || c == lower
  {
  }

  /** The letters of `ApprovalToken` are the only ones that upper-case to it. */
  lemma UpperIsToken(decision: string)
    ensures Upper(decision) == ApprovalToken <==>
      |decision| == 8 && forall i :: 0 <= i < 8 ==> decision[i] == "APPROVED"[i] || decision[i] == "approved"[i]
  {
    if |decision| == 8 {
      forall i | 0 <= i < 8
        ensures UpperChar(decision[i]) == "APPROVED"[i] <==> decision[i] == "APPROVED"[i] || decision[i] == "approved"[i]
      {
        UpperCharIsLetter(decision[i], "APPROVED"[i], "approved"[i]);
      }
      assert Upper(decision) == ApprovalToken <==> forall i :: 0 <= i < 8 ==> UpperChar(decision[i]) == "APPROVED"[i];
    }
  }

  /**
   * `user_decision.upper() == "APPROVED"`: an exact, letter-by-letter
   * case-insensitive match of the whole decision, not trimmed: eight
   * characters, each the upper- or lower-case letter of "APPROVED".
   */
  predicate IsApproval(decision: string)
    ensures IsApproval(decision) <==>
      |decision| == 8 && forall i :: 0 <= i < 8 ==> decision[i] == "APPROVED"[i] || decision[i] == "approved"[i]
  {
    UpperIsToken(decision);
    Upper(decision) == ApprovalToken
  }

  /** What the terminal and Streamlit callers compare: the stripped input. */
  predicate CallerApproves(typed: string) {
    IsApproval(Strip(typed))
  }

  /** Lower or mixed case passes; padding passes only where the caller strips it. */
  lemma ApprovalExamples()
    ensures IsApproval("approved") && IsApproval("Approved") && IsApproval("APPROVED")
    ensures !IsApproval("APPROVED!") && !IsApproval("not approved") && !IsApproval("")
    ensures !IsApproval(" approved ") && CallerApproves(" approved ")
  {
    var padded := " approved ";
    assert !IsSpace(padded[1]) && IsSpace(padded[0]);
    assert StripStart(padded) == 1;
    assert !IsSpace(padded[8]) && IsSpace(padded[9]);
    assert StripEnd(padded) == 9;
    assert padded[1..9] == "approved";
  }

  // ---------------------------------------------------------------------
  // Choosing the page

  /** A SoftwareEngineer message whose extraction is non-empty and longer than 50 characters. */
  predicate Qualifies(m: Message) {
    && SpokenBy(m, SoftwareEngineer)
    && |ExtractHtml(m.content)| > 0
    && |ExtractHtml(m.content)| > MinArtifactLength
  }

  /** The index of the first qualifying message at or after `from`. */
  function FirstArtifactFrom(history: seq<Message>, from: nat): (r: Option<nat>)
    requires from <= |history|
    ensures r.Some? ==> from <= r.value < |history| && Qualifies(history[r.value])
    ensures forall k :: from <= k < |history| && (r.None? || k < r.value) ==> !Qualifies(history[k])
    decreases |history| - from
  {
    if from == |history| then None
    else if Qualifies(history[from]) then Some(from)
    else FirstArtifactFrom(history, from + 1)
  }

  /** The page `handle_approval` deploys, if any. */
  function SelectArtifact(history: seq<Message>): (r: Option<string>)
    ensures r.Some? ==> |r.value| > MinArtifactLength
    ensures r.None? <==> forall k :: 0 <= k < |history| ==> !Qualifies(history[k])
  {
    match FirstArtifactFrom(history, 0)
    case Some(i) => Some(ExtractHtml(history[i].content))
    case None => None
  }

  /** The first qualifying message in history order is the one deployed. */
  lemma FirstQualifyingWins(history: seq<Message>, i: nat)
    requires i < |history| && Qualifies(history[i])
    requires forall k :: 0 <= k < i ==> !Qualifies(history[k])
    ensures SelectArtifact(history) == Some(ExtractHtml(history[i].content))
  {
    var r := FirstArtifactFrom(history, 0);
    assert r.Some? && r.value == i;
  }

  /** A message that does not qualify passes the search on to the next one. */
  lemma NonQualifyingSkipped(history: seq<Message>, i: nat)
    requires i < |history| && !Qualifies(history[i])
    ensures FirstArtifactFrom(history, i) == FirstArtifactFrom(history, i + 1)
  {
  }

  /** Once a page qualifies, later messages never change the choice. */
  lemma LaterMessagesIgnored(history: seq<Message>, later: seq<Message>)
    requires SelectArtifact(history).Some?
    ensures SelectArtifact(history + later) == SelectArtifact(history)
  {
    var i := FirstArtifactFrom(history, 0).value;
    var h := history + later;
    assert h[i] == history[i];
    forall k | 0 <= k < i ensures !Qualifies(h[k]) {
      assert h[k] == history[k];
    }
    FirstQualifyingWins(h, i);
  }

  // ---------------------------------------------------------------------
  // Messages and effects

  const NoValidHtmlMessage: string := "\U{274C} No valid HTML code found."

  const RejectionOpening: string := "\U{274C} Solution not approved. User typed '"
  const RejectionClosing: string := "' instead of 'APPROVED'."

  /** The rejection quotes the decision exactly as it was given. */
  function RejectionMessage(decision: string): string {
    RejectionOpening + decision + RejectionClosing
  }

  /** Python's f-string rendering of an optional URL. */
  function Show(url: Option<string>): string {
    match url
    case Some(u) => u
    case None => "None"
  }

  const SizeOpening: string := "\U{1F4CA} File size: "
  const SizeClosing: string := " characters"

  function SizeLine(size: nat): string {
    SizeOpening + Decimal(size) + SizeClosing
  }

  const LiveOpening: string := "\U{1F517} View your live app: "
  const SourceOpening: string := "\U{1F4C4} View source code: "
  const DownloadOpening: string := "\U{2B07}\U{FE0F} Direct download: "
  const LocalOpening: string := "\U{1F4C1} Local file: "

  /** A setting the URL builders accept. */
  predicate IsGitHubSetting(repoUrl: string) {
    repoUrl != "" && Contains(repoUrl, GitHubHost)
  }

  /** The live-app line, written only for a non-empty Pages URL. */
  function LiveLine(pagesUrl: Option<string>): string {
    if pagesUrl.Some? && |pagesUrl.value| > 0 then LiveOpening + pagesUrl.value + "\n" else ""
  }

  function SourceLine(fileUrl: Option<string>): string {
    SourceOpening + Show(fileUrl) + "\n"
  }

  function DownloadLine(rawUrl: Option<string>): string {
    DownloadOpening + Show(rawUrl) + "\n"
  }

  /**
   * The three link lines after a successful push, from the Pages, file and
   * raw URLs: the live-app line first when there is a non-empty Pages URL,
   * the source line naming the file URL, and the download line last.
   */
  function PushedLinks(pagesUrl: Option<string>, fileUrl: Option<string>, rawUrl: Option<string>): (lines: string)
    ensures pagesUrl.Some? && |pagesUrl.value| > 0 ==> StartsWith(lines, LiveOpening + pagesUrl.value + "\n")
    ensures Contains(lines, SourceLine(fileUrl))
    ensures rawUrl.Some? ==> EndsWith(lines, DownloadOpening + rawUrl.value + "\n")
  {
    ConcatEnds(LiveLine(pagesUrl), SourceLine(fileUrl), DownloadLine(rawUrl));
    LiveLine(pagesUrl) + SourceLine(fileUrl) + DownloadLine(rawUrl)
  }

  /**
   * The lines pointing at the deployed page: after a push the source-code
   * line is always among them, showing "None" where there is no file URL;
   * otherwise they name the local file only.
   */
  function LinkLines(pushSucceeded: bool, env: Deployment): (lines: string)
    ensures pushSucceeded ==> Contains(lines, SourceLine(GitHubFileUrl(env.repoUrl, OutputFileName, DeployBranch)))
    ensures !pushSucceeded ==> lines == LocalOpening + env.outputPath + "\n"
  {
    if pushSucceeded then
      PushedLinks(
        GitHubPagesUrl(env.repoUrl, OutputFileName, DeployBranch, env.cacheBuster),
        GitHubFileUrl(env.repoUrl, OutputFileName, DeployBranch),
        GitHubRawUrl(env.repoUrl, OutputFileName, DeployBranch))
    else
      LocalOpening + env.outputPath + "\n"
  }

  /** After a successful push the live-app line comes first whenever there is a Pages URL. */
  lemma LiveLinkFirst(env: Deployment)
    requires GitHubPagesUrl(env.repoUrl, OutputFileName, DeployBranch, env.cacheBuster).Some?
    ensures StartsWith(LinkLines(true, env),
      LiveOpening + GitHubPagesUrl(env.repoUrl, OutputFileName, DeployBranch, env.cacheBuster).value + "\n")
  {
    assert |GitHubPagesUrl(env.repoUrl, OutputFileName, DeployBranch, env.cacheBuster).value| > 0;
  }

  /** For a GitHub setting, the links close with the raw download of the page on "main". */
  lemma DownloadLinkLast(env: Deployment)
    requires IsGitHubSetting(env.repoUrl)
    ensures EndsWith(LinkLines(true, env),
      DownloadOpening + DropGitSuffix(env.repoUrl) + "/raw/" + DeployBranch + "/" + OutputFileName + "\n")
  {
    var raw := DropGitSuffix(env.repoUrl) + "/raw/" + DeployBranch + "/" + OutputFileName;
    var rawUrl := GitHubRawUrl(env.repoUrl, OutputFileName, DeployBranch);
    assert rawUrl == Some(raw);
    assert DownloadOpening + rawUrl.value + "\n"
        == DownloadOpening + DropGitSuffix(env.repoUrl) + "/raw/" + DeployBranch + "/" + OutputFileName + "\n";
  }

  /** For a GitHub setting, the source line names the file's page on "main". */
  lemma SourceLinkNamed(env: Deployment)
    requires IsGitHubSetting(env.repoUrl)
    ensures Contains(LinkLines(true, env),
      SourceLine(Some(DropGitSuffix(env.repoUrl) + "/blob/" + DeployBranch + "/" + OutputFileName)))
  {
  }


  /**
   * For a setting that is not GitHub's both links read "None" and there is
   * no live-app line; after a failed push only the local file is named.
   */
  lemma LinksWithoutGitHub(pushSucceeded: bool, env: Deployment)
    ensures pushSucceeded && !IsGitHubSetting(env.repoUrl) ==>
      LinkLines(pushSucceeded, env) == SourceOpening + "None\n" + DownloadOpening + "None\n"
    ensures !pushSucceeded ==> LinkLines(pushSucceeded, env) == LocalOpening + env.outputPath + "\n"
  {
  }

  const SavedLine: string := "\U{2705} Web app created and saved!\n"

  /**
   * The result message built after the write and the push attempt: it
   * opens with the saved line and always closes with the page's size,
   * whether or not the push succeeded.
   */
  function ResultMessage(htmlCode: string, pushSucceeded: bool, env: Deployment): (msg: string)
    ensures StartsWith(msg, SavedLine)
    ensures EndsWith(msg, SizeLine(|htmlCode|))
  {
    StartsWithConcat(SavedLine, LinkLines(pushSucceeded, env) + SizeLine(|htmlCode|));
    EndsWithConcat(SavedLine + LinkLines(pushSucceeded, env), SizeLine(|htmlCode|));
    assert SavedLine + (LinkLines(pushSucceeded, env) + SizeLine(|htmlCode|))
        == SavedLine + LinkLines(pushSucceeded, env) + SizeLine(|htmlCode|);
    SavedLine + LinkLines(pushSucceeded, env) + SizeLine(|htmlCode|)
  }

  /**
   * The page reaches the message only through its length, and the number
   * the size line reports reads back as that length.
   */
  lemma ResultReportsSize(htmlCode: string, other: string, pushSucceeded: bool, env: Deployment)
    requires |other| == |htmlCode|
    ensures ResultMessage(other, pushSucceeded, env) == ResultMessage(htmlCode, pushSucceeded, env)
    ensures DecimalValue(Decimal(|htmlCode|)) == |htmlCode|
  {
    DecimalRoundTrip(|htmlCode|);
  }

  /**
   * The effects of `handle_approval`, and of the terminal branch on its
   * stripped input. Nothing is written or pushed unless the decision is the
   * token and a page qualifies; then the page is written first and pushed
   * second.
   */
  function ApprovalEffects(history: seq<Message>, decision: string, env: Deployment): (effects: seq<Effect>)
    ensures effects != [] <==> IsApproval(decision) && SelectArtifact(history).Some?
    ensures effects != [] ==> effects == [WriteLocal(env.outputPath, SelectArtifact(history).value), PushToGitHub]
  {
    if !IsApproval(decision) then []
    else match SelectArtifact(history)
      case None => []
      case Some(htmlCode) => [WriteLocal(env.outputPath, htmlCode), PushToGitHub]
  }

  /**
   * `handle_approval(chat_history, user_decision)`. `pushSucceeded` is what
   * the push, once attempted, reports.
   */
  method HandleApproval(chatHistory: seq<Message>, userDecision: Option<string>, env: Deployment, pushSucceeded: bool)
    returns (htmlCode: Option<string>, resultMessage: string, effects: seq<Effect>)
    ensures effects == ApprovalEffects(chatHistory, DecisionText(userDecision), env)
    ensures !IsApproval(DecisionText(userDecision)) ==>
      htmlCode.None? && resultMessage == RejectionMessage(DecisionText(userDecision))
    ensures IsApproval(DecisionText(userDecision)) ==> htmlCode == SelectArtifact(chatHistory)
    ensures IsApproval(DecisionText(userDecision)) && htmlCode.None? ==> resultMessage == NoValidHtmlMessage
    ensures IsApproval(DecisionText(userDecision)) && htmlCode.Some? ==>
      resultMessage == ResultMessage(htmlCode.value, pushSucceeded, env)
  {
    var decision := if userDecision.None? then ApprovalToken else userDecision.value;
    assert decision == DecisionText(userDecision);
    if Upper(decision) != ApprovalToken {
      return None, RejectionMessage(decision), [];
    }
    assert IsApproval(decision);
    htmlCode := None;
    var i := 0;
    while i < |chatHistory|
      invariant 0 <= i <= |chatHistory|
      invariant htmlCode.None?
      invariant FirstArtifactFrom(chatHistory, i) == FirstArtifactFrom(chatHistory, 0)
    {
      var message := chatHistory[i];
      if SpokenBy(message, SoftwareEngineer) {
        var extractedHtml := ExtractHtml(message.content);
        if |extractedHtml| > 0 && |extractedHtml| > MinArtifactLength {
          htmlCode := Some(extractedHtml);
          break;
        }
      }
      NonQualifyingSkipped(chatHistory, i);
      i := i + 1;
    }
    assert htmlCode == SelectArtifact(chatHistory);
    if htmlCode.Some? {
      effects := [WriteLocal(env.outputPath, htmlCode.value)];
      effects := effects + [PushToGitHub];
      resultMessage := ResultMessage(htmlCode.value, pushSucceeded, env);
    } else {
      resultMessage := NoValidHtmlMessage;
      effects := [];
    }
  }
}
