# Multi-agent web-app workflow: a Dafny model of its orchestration

The system runs a group chat between three language-model agents. The
BusinessAnalyst gathers requirements, the SoftwareEngineer writes a
single-file HTML page, and the ProductOwner reviews the page until it
declares "READY FOR USER APPROVAL". A person must then type `APPROVED`.
Only then is the page taken out of the chat, written to `index.html` and
pushed to GitHub.

This project models the deterministic orchestration around the model
calls and proves its properties. The orchestration lives in
`src/multi_agent.py`. `src/ui/multi_agent.py` is a byte-identical copy at
the same line numbers, so every statement below holds for both files.

The modules:

- `PyStrings` (`py_strings.dfy`) models the Python `str` operations the
  code relies on:
  - `strip()`, with the full `isspace` set;
  - `upper()`, as far as it can produce an ASCII letter;
  - the `in` test, `endswith`, `replace` and one-character `split`;
  - `str(n)`.
- `Chat` (`chat.dfy`) holds chat messages, as an optional speaker name plus
  content, and the agent names.
- `HtmlFence` (`html_fence.dfy`) models `_extract_html`. The regular
  expression search becomes a leftmost-opener, first-closer search. The
  model also gives an independent description of the leftmost fence, and
  proves that the extraction agrees with it.
- `Termination` (`termination.dfy`) models `should_agent_terminate` as a
  loop over the last five messages, newest first. It also models the
  `approval_in_history` check that runs after the loop.
- `Selection` (`selection.dfy`) models `parse_agent_selection`.
- `GitHubUrls` (`github_urls.dfy`) models the file, raw and Pages URL
  builders. The `GITHUB_REPO_URL` setting and the timestamp are parameters.
- `Approval` (`approval.dfy`) models `handle_approval`:
  - the writing of the file and the push are an effect log;
  - whether the push succeeded is an input.
- `Conversation` (`conversation.dfy`) models the turn loop of
  `run_multi_agent`:
  - the messages the chat streams are an arbitrary sequence;
  - the loop is a method that uses the source's own variables;
  - the method is proved equal to a step function folded over the stream;
  - the invariants of reachable states are proved about that fold.
- `Outcome` (`outcome.dfy`) models what happens after the loop:
  - the update of `workflow_status`;
  - the Streamlit result dictionary;
  - the terminal-mode approval and deployment;
  - the Streamlit approval button.

Four behaviours of the code are easy to misread:

- `handle_approval` compares `user_decision.upper()` with "APPROVED"
  without trimming it (`src/multi_agent.py:896`). The terminal branch of
  `run_multi_agent` (line 822) and the Streamlit button (line 1048) strip
  the typed text before their own test. The terminal branch then repeats
  the selection, write and push inline (lines 823-862), and only the
  button calls `handle_approval`, with the literal token (line 1051).
- Inside the loop, the marker test looks only at the current message, and
  does not strip it (line 740). The last-five-messages test is done by
  `approval_in_history` after the loop (lines 774-777). The model proves
  that the two agree on every run (`Conversation.RunBounds`).
- `workflow_status["error_occurred"]` and `error_message` are set to their
  defaults and never changed (lines 666-672). A failing model call is an
  exception that ends the run, so no error status exists to model.
- The closing analyst note (lines 761-769) is added only after a third
  counted analyst question. A repeated analyst message is skipped unless a
  message named "User" came in between. The group chat is built from the
  three agents alone (line 692), so the messages `chat.invoke()` yields never
  carry that name. The note is therefore never added on a stream of agent
  messages (`Conversation.AtMostOneQuestionWithoutUser`).

## Model

| member | source | states |
|---|---|---|
| HtmlFence.ExtractHtml | src/multi_agent.py:84-89 | the result never starts or ends with white space (what it holds with and without a fence is stated by `ExtractFenced` and `ExtractFallback`) |
| HtmlFence.FirstCloser | src/multi_agent.py:75 | the lazy group ends at the first "```" at or after the given index, and none lies before it |
| HtmlFence.FindFence | src/multi_agent.py:75 | the search returns the leftmost position where an opener is followed by a closer, paired with the first closer after that opener |
| HtmlFence.FindFenceIsLeftmost | src/multi_agent.py:84-87 | the search finds the fence (i, j) exactly when i is the leftmost case-insensitive "```html" that has a later "```", and j is the first "```" after it |
| HtmlFence.ExtractFenced | src/multi_agent.py:84-87 | with a fence, the result is the stripped text between the leftmost opener and the first closer after it |
| HtmlFence.ExtractFallback | src/multi_agent.py:88-89 | without a fence, the result is `text.strip()` |
| HtmlFence.LeftmostFenceExists | src/multi_agent.py:85-87 | any text with a fence has a leftmost one, so the search succeeds |
| HtmlFence.InnerHasNoCloser | src/multi_agent.py:75 | the text between the leftmost opener and its closer contains no "```" |
| HtmlFence.FencedHasNoCloser | src/multi_agent.py:85-87 | a page extracted from a fence never contains "```" |
| Termination.WindowStart | src/multi_agent.py:246 | `history[-5:]` covers the last min(5, length) messages |
| Termination.ShouldAgentTerminate | src/multi_agent.py:243-252 | true exactly when one of the last five messages is the ProductOwner's, is non-empty, and contains the marker once stripped and upper-cased |
| Termination.SaysReadyUnstripped | src/multi_agent.py:775 | the unstripped per-message test of `approval_in_history` gives the same answer as the strategy's stripped test on every message |
| Termination.ApprovalInHistory | src/multi_agent.py:774-777 | `approval_in_history` holds exactly when the termination strategy would stop on the same history |
| Termination.OnlyLastFiveMatter | src/multi_agent.py:246 | messages older than the last five never change the answer |
| Termination.OnlyProductOwnerMatters | src/multi_agent.py:248 | histories that differ only in messages of other speakers give the same answer |
| Selection.ParseAgentSelection | src/multi_agent.py:290-300 | always one of the three agent names: the engineer iff "ENGINEER" occurs, even beside "PRODUCTOWNER"; the product owner iff "PRODUCTOWNER" occurs without "ENGINEER"; else the analyst |
| Selection.EngineerInSoftwareEngineer | src/multi_agent.py:294-297 | the "SOFTWAREENGINEER" test is subsumed by the "ENGINEER" test |
| Selection.SelectionIgnoresStrip | src/multi_agent.py:292 | white space around the answer never changes the choice |
| GitHubUrls.HostSurvivesSuffix | src/multi_agent.py:103-110 | removing a trailing ".git" never changes whether "github.com" occurs |
| GitHubUrls.WebUrl | src/multi_agent.py:96-110 | a web address exists exactly for a non-empty setting that contains "github.com", and it is the setting without its trailing ".git" |
| GitHubUrls.GitHubFileUrl | src/multi_agent.py:92-113 | a URL exists exactly for a non-empty setting containing "github.com", and it is `<setting without .git>/blob/<branch>/<file>` |
| GitHubUrls.GitHubRawUrl | src/multi_agent.py:153-171 | a URL exists exactly for a non-empty setting containing "github.com", and it is `<setting without .git>/raw/<branch>/<file>` |
| GitHubUrls.GitHubPagesUrl | src/multi_agent.py:115-151 | a URL exists only for a GitHub setting, and for one exactly when the address less "https://github.com/" splits on "/" into at least two parts; it starts with "https://" and ends with `/<file>?v=<timestamp>` |
| GitHubUrls.FileAndRawUrlsOfRepository | src/multi_agent.py:92-113 | for `https://github.com/<path>`, with or without ".git", the URLs are `<address>/blob/<branch>/<file>` and `<address>/raw/<branch>/<file>` |
| GitHubUrls.NoPrefixInOwnerRepo | src/multi_agent.py:138 | removing "https://github.com/" from the address leaves `<owner>/<repo>` intact |
| GitHubUrls.AddressKeepsRepo | src/multi_agent.py:125-128 | an address whose repository name lacks ".git" is not shortened by the suffix removal |
| GitHubUrls.PagesUrlOfRepository | src/multi_agent.py:115-151 | for `https://github.com/U/R` or the same with ".git", the Pages URL is `https://U.github.io/R/<file>?v=<timestamp>` |
| GitHubUrls.PagesUrlFromParts | src/multi_agent.py:138-146 | when the address less "https://github.com/" splits into two or more parts, the Pages URL is `https://<parts[0]>.github.io/<parts[1]>/<file>?v=<timestamp>`, whatever follows |
| GitHubUrls.PagesUrlNeedsOwnerAndRepo | src/multi_agent.py:138-151 | an address with only an owner gives no Pages URL, though it has a file URL |
| Approval.UpperIsToken | src/ui/multi_agent.py:896 | `upper()` gives "APPROVED" exactly for eight characters, each the upper- or lower-case letter of "APPROVED" |
| Approval.IsApproval | src/ui/multi_agent.py:896 | the decision is accepted exactly when it has eight characters, each the upper- or lower-case letter of "APPROVED"; it is not trimmed |
| Approval.ApprovalExamples | src/ui/multi_agent.py:896 | "approved" and "Approved" pass; "APPROVED!", "not approved", "" and " approved " fail; the callers' stripping makes " approved " pass |
| Approval.FirstArtifactFrom | src/ui/multi_agent.py:904-910 | the index found holds a qualifying SoftwareEngineer message, and no earlier one qualifies |
| Approval.SelectArtifact | src/ui/multi_agent.py:903-910 | the selected page is longer than 50 characters; there is none exactly when no message qualifies |
| Approval.FirstQualifyingWins | src/ui/multi_agent.py:904-910 | the first qualifying message in history order is the one deployed |
| Approval.LaterMessagesIgnored | src/ui/multi_agent.py:904-910 | once a message qualifies, later messages never change the choice |
| Approval.PushedLinks | src/ui/multi_agent.py:946-949 | the live-app line comes first when there is a non-empty Pages URL, the source line naming the file URL is present, and the download line comes last |
| Approval.LinkLines | src/ui/multi_agent.py:945-951 | after a push the source-code line is always present, reading "None" without a file URL; after a failed push only the local file is named |
| Approval.LiveLinkFirst | src/ui/multi_agent.py:946-947 | after a successful push, a Pages URL is always shown, first |
| Approval.DownloadLinkLast | src/ui/multi_agent.py:949 | after a successful push with a GitHub setting, the links end with the raw download of `index.html` on `main` |
| Approval.SourceLinkNamed | src/ui/multi_agent.py:948 | after a successful push with a GitHub setting, the links name the source page `<setting without .git>/blob/main/index.html` |
| Approval.LinksWithoutGitHub | src/ui/multi_agent.py:944-951 | after a push with a setting that is not GitHub's, there is no live-app line and both links read "None"; after a failed push only the local file is named |
| Approval.ResultMessage | src/ui/multi_agent.py:944-952 | the result message opens with the saved line and ends with the size line, whether or not the push succeeded |
| Approval.ResultReportsSize | src/ui/multi_agent.py:952 | the page reaches the result message only through its length, and the reported number reads back as that length |
| Approval.ApprovalEffects | src/ui/multi_agent.py:896-918 | there is a write or a push exactly when the decision is the token and a page qualifies; then the page is written first and pushed second |
| Approval.HandleApproval | src/ui/multi_agent.py:889-956 | a decision that is not the token: no code, the rejection message quoting the decision, no effects; `None` counts as the token; no qualifying page: the "No valid HTML code found." message; otherwise the selected page, the result message, and the write followed by the push |
| Conversation.Step | src/multi_agent.py:711-769 | one pass appends the message, plus the closing note exactly after a counted third or later analyst question below the limit; it counts every message but a repeated analyst one; `ba_asked` is set by an analyst message unless the note is added, cleared by a "User" message and otherwise kept; it stops with approval exactly on a counted marker and at the safety limit exactly on a counted unmarked message beyond 20 |
| Conversation.Run | src/multi_agent.py:711-771 | a stopped state is final, and the count grows by at most one per streamed message |
| Conversation.RunTurnLoop | src/multi_agent.py:703-771 | the loop computes the step function folded over the stream; at most 21 messages are counted; the safety stop means exactly 21 and excludes approval; the approval flag is set iff `approval_in_history` holds |
| Conversation.MarksReadyIsUnstripped | src/multi_agent.py:740 | the loop's marker test equals the post-loop predicate |
| Conversation.InitialInvariant | src/multi_agent.py:696-708 | the state before the loop, holding only the user's request, satisfies the reachable-state invariant |
| Conversation.StepKeepsInvariant | src/multi_agent.py:711-771 | one loop pass preserves the invariant: count bounds, the safety stop at 21 without approval, the marker only as the newest message and only with approval |
| Conversation.RunKeepsInvariant | src/multi_agent.py:711-771 | the whole loop preserves the invariant |
| Conversation.ReadyMeansApprovalInHistory | src/multi_agent.py:774-777 | in a reachable state the loop's approval flag equals `approval_in_history` |
| Conversation.RunBounds | src/multi_agent.py:725-760 | for every user request and stream: at most 21 counted messages, the safety stop exactly at 21 and never with approval, and approval iff the marker is among the last five messages |
| Conversation.RepeatedAnalystSkipped | src/multi_agent.py:714-717 | a BusinessAnalyst message while `ba_asked` is set is recorded by the chat, but the count, the question count and the flag are unchanged and the loop goes on |
| Conversation.MarkerBeatsLimit | src/multi_agent.py:740-760 | a marked ProductOwner message ends the loop with approval and not at the safety limit, even as the 21st counted message |
| Conversation.ThirdQuestionInjectsNote | src/multi_agent.py:761-769 | a counted third or later analyst question below the limit appends exactly the message itself and the closing analyst note, and clears `ba_asked` |
| Conversation.NoNoteOtherwise | src/multi_agent.py:761-769 | every pass that does not add the note, including an analyst question counted as the 21st message, appends only the streamed message |
| Conversation.RunExtendsHistory | src/multi_agent.py:711-771 | the loop only appends to the history |
| Conversation.RunWithoutUser | src/multi_agent.py:714-769 | without "User" messages, the question count is one exactly while `ba_asked` is set, and the history grows only by a prefix of the stream |
| Conversation.AtMostOneQuestionWithoutUser | src/multi_agent.py:714-769 | without "User" messages, at most one analyst message is counted and no closing note is added: after the request the history is a prefix of the stream |
| Conversation.PlainRunCounts | src/multi_agent.py:725-760 | with no analyst messages and no marker, each message is counted, and the safety stop comes once more than 20 were counted |
| Conversation.SafetyLimitReachedByPlainStream | src/multi_agent.py:757-760 | such a stream reaches the safety limit exactly when it has more than 20 messages |
| Outcome.Classify | src/ui/multi_agent.py:793-871 | the safety status exactly at the safety stop, awaiting approval exactly with the marker and no safety stop, incomplete otherwise |
| Outcome.StatusName | src/ui/multi_agent.py:798-869 | each status has its own name: "safety_limit_reached", "awaiting_approval" and "incomplete" are given exactly to their statuses |
| Outcome.ErrorMessage | src/ui/multi_agent.py:797-871 | every status but awaiting approval carries an error message |
| Outcome.FinalWorkflowStatus | src/ui/multi_agent.py:779-782 | `completed` exactly when the marker is among the last five messages, and then `approval_ready`; approval set in the loop stays set; the safety flag is the loop's; no error is recorded |
| Outcome.RunOutcome | src/ui/multi_agent.py:793-871 | the safety status exactly at the safety stop, awaiting approval exactly with the marker among the last five messages and no stop, incomplete otherwise |
| Outcome.OutcomeOfRun | src/ui/multi_agent.py:774-871 | on every run, the status is awaiting approval iff the loop saw the marker, the safety status iff the safety stop happened, and incomplete iff the stream ran out; `completed` equals `approval_ready` |
| Outcome.Reply | src/ui/multi_agent.py:796-817 | the Streamlit result carries the chat history exactly when approval is awaited, has an error message exactly otherwise, and always lists the messages |
| Outcome.StreamlitResult | src/ui/multi_agent.py:784-817 | the Streamlit return value lists the whole history, names the run's status, and hands over the history exactly when the marker was seen without the safety stop |
| Outcome.StreamlitAwaitsExactlyWhenReady | src/ui/multi_agent.py:1010-1014 | the front end asks for approval exactly after runs whose loop saw the marker |
| Outcome.TerminalEffects | src/ui/multi_agent.py:818-862 | terminal mode writes and pushes only after a ready run without the safety stop, a typed line that strips to the token, and a qualifying page; it writes that page, then pushes |
| Outcome.StreamlitDeployEffects | src/ui/multi_agent.py:1046-1051 | the Streamlit button has the effects `handle_approval` has on the stripped input |

## Left out

- The agents, their prompts, the selection prompt and the semantic-kernel
  framework are left out. Who speaks next and what they say come from a
  language model, so `chat.invoke()` is an arbitrary finite stream of
  messages.
- The framework's own stop on `should_agent_terminate` inside `invoke` is
  not modelled separately. It only makes the stream end earlier, which an
  arbitrary stream already covers.
- `history_for_selection` and `selection_strategy.arguments` (lines
  746-754) are left out. They only build text for the selection prompt and
  never affect the orchestration.
- `last_agent_name` and `last_speaker` are left out. They are assigned but
  never read.
- Git and subprocesses are left out: `execute_git_push`,
  `execute_git_push_with_script`, `find_git_bash` and
  `diagnose_git_setup`. The push result is a boolean input.
- The filesystem and the environment are left out: `find_git_root`,
  `find_push_script`, `load_dotenv`, `os.getenv`, the resolution of
  `HTML_OUTPUT_FILE` and `write_text`. The repository URL, the resolved
  output path and `int(time.time())` are fields of
  `Approval.Deployment`. The write is a `WriteLocal` effect.
- All `print` output is left out. So are `asyncio`, the Windows stderr
  redirect and `main()`.
- The Streamlit page layout is left out. `src/ui/app.py` and
  `src/ui/test_openai_connection.py` are not part of this model.
- `Outcome.StreamlitResult`: the `streamlit_messages` list of
  role/content dictionaries is represented by the chat history itself.
- PyStrings.Upper: models `str.upper()` one character at a time rather
  than with Python's full case mapping. `a`..`z`, dotless `ı` and long `ſ`
  become ASCII capitals, and every other character is left unchanged.
  Python also turns some characters into two, such as `ß` into "SS" or `ﬁ`
  into "FI". None of the tests for "ENGINEER", "PRODUCTOWNER" or the ready
  marker, and none of the comparisons with "APPROVED", can see the
  difference. The test for "SOFTWAREENGINEER" can: Python finds it in
  "ßOFTWAREENGINEER" and the model does not. Both still return
  "SoftwareEngineer", because the "ENGINEER" test comes next.
- The unreachable code after the function's `return` (lines 880-887) is
  left out.
- The `try`/`except` around the Pages URL (lines 137-149) is left out; the
  statements it guards cannot raise.
