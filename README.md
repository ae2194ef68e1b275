# ticket-commit-msg: the commit-message patcher

`ticket-commit-msg` is a git `commit-msg` hook. It reads the commit message, takes a
ticket identifier from the current branch name and an optional prefix from git
configuration, and rewrites the message so that it mentions the ticket. This project
models the patching step, `patch_commit_msg` in `src/patch_commit_msg/mod.rs`, and
proves what it does to the message.

The patcher works on the message as a list of lines:

- a line is a comment ("service comment") when it starts with `#`;
- with no ticket the message is returned unchanged;
- otherwise the lines are scanned from the top; as soon as a non-comment line contains
  the ticket as a substring, the scan stops and the message is returned unchanged;
- otherwise the line `prefix + ticket` (empty prefix when none is configured) is
  inserted at the index of the first comment line, or pushed at the end when the
  message has no comment line.

Files:

- `rust_str.dfy`, module `RustStr`: Rust's `str::starts_with` and `str::contains` as
  predicates over characters, with the facts the patcher needs (every string contains
  the empty pattern; `a + b` contains `b`).
- `patch_commit_msg.dfy`, module `PatchCommitMsg`: the comment classifier, the
  specification function `Patched`, the method `PatchCommitMsg` that follows the source's
  loop (the `found` flag, the `first_comment_line` bookkeeping, the early `break`, then
  `push` or `insert`) and is proved equal to `Patched`, and the lemmas about `Patched`.

This revision of `patch_commit_msg` scans forward, counts the ticket as found when it is a
substring of a non-comment line, and otherwise inserts `prefix + ticket` before the first
comment line or appends it. It has no trailer-block handling and does not strip the
prefix.

## Model

| member | source | states |
|---|---|---|
| `PatchCommitMsg.IsServiceCommentLine` | src/patch_commit_msg/mod.rs:1-3 | a line is a service comment exactly when it is non-empty and its first character is `#` |
| `PatchCommitMsg.TicketFound` | src/patch_commit_msg/mod.rs:15-28 | the forward scan finds the ticket exactly when some line that is not a comment contains it |
| `RustStr.StartsWith` | src/patch_commit_msg/mod.rs:2 | `starts_with` holds exactly when the pattern is no longer than the string and agrees with it character by character |
| `PatchCommitMsg.FirstComment` | src/patch_commit_msg/mod.rs:16-21 | the index found is a comment line with no comment line before it; none is found exactly when no line is a comment |
| `PatchCommitMsg.InsertionIndex` | src/patch_commit_msg/mod.rs:35-41 | the insertion index is within `0..=len`, and strictly inside the message exactly when the message has a comment line |
| `PatchCommitMsg.NewLine` | src/patch_commit_msg/mod.rs:30-34 | the line built from the prefix (empty when absent) and the ticket always contains the ticket |
| `PatchCommitMsg.Patched` | src/patch_commit_msg/mod.rs:12-46 | no ticket: output equals input; a non-comment line contains the ticket: output equals input; otherwise the output is one line longer and holds `prefix + ticket` at the insertion index |
| `PatchCommitMsg.PatchCommitMsg` | src/patch_commit_msg/mod.rs:5-47 | the forward scan with early exit, followed by `push`/`insert`, returns exactly `Patched` of its inputs; the input is a value and is left as it was |
| `PatchCommitMsg.AppendedWhenNoComment` | src/patch_commit_msg/mod.rs:35-38 | ticket not found and no comment line: every original line keeps its index and the new line is last |
| `PatchCommitMsg.InsertedBeforeFirstComment` | src/patch_commit_msg/mod.rs:15-41 | ticket not found and first comment at `k`: the new line is at `k`, lines before `k` are unchanged, every later line moves down by one in order, and a comment line follows the new line |
| `PatchCommitMsg.OnlyInserts` | src/patch_commit_msg/mod.rs:35-41 | when the ticket is not found, deleting the inserted line from the output gives back the input |
| `PatchCommitMsg.CommentMentionsIgnored` | src/patch_commit_msg/mod.rs:18-23 | if only comment lines contain the ticket, the new line is still added and the output is one line longer |
| `PatchCommitMsg.TicketReferenced` | src/patch_commit_msg/mod.rs:17-43 | unless `prefix + ticket` is itself a comment, the output always has a non-comment line containing the ticket |
| `PatchCommitMsg.PatchIdempotent` | src/patch_commit_msg/mod.rs:17-43 | unless `prefix + ticket` is a comment, patching the patched message again changes nothing |
| `PatchCommitMsg.CommentNewLineRepeats` | src/patch_commit_msg/mod.rs:18-41 | when `prefix + ticket` starts with `#` and the ticket is missing, a second run adds a second copy |
| `PatchCommitMsg.EmptyTicketFound` | src/patch_commit_msg/mod.rs:22-25 | an empty ticket is contained in every line, so any message with a non-comment line is left unchanged |
| `RustStr.Contains` | src/patch_commit_msg/mod.rs:23 | `contains` holds of the empty pattern for every string, never of a pattern longer than the string, and of every prefix of the string |
| `PatchCommitMsg.NoTicketScenario` | src/patch_commit_msg/mod.rs:54-62 | `["1","2"]` with no ticket keeps two lines |
| `PatchCommitMsg.AddTicketScenario` | src/patch_commit_msg/mod.rs:65-74 | `["1","2"]` with ticket `ISSUE-123` becomes three lines ending in `ISSUE-123` |
| `PatchCommitMsg.AddTicketWithPrefixScenario` | src/patch_commit_msg/mod.rs:77-86 | with prefix `ISSUE: ` the third line is `ISSUE: ISSUE-123` |
| `PatchCommitMsg.TicketInTextScenario` | src/patch_commit_msg/mod.rs:89-96 | a line with `ISSUE-123` inside other text counts as found; the message keeps two lines |
| `PatchCommitMsg.TicketOnlyInCommentScenario` | src/patch_commit_msg/mod.rs:99-109 | a mention only inside a comment does not count: `ISSUE-123` is inserted at index 1, before the comment |

## Left out

- Reading the commit-message file, splitting it into lines and writing it back
  (`src/file/mod.rs`): file I/O; the model takes and returns the list of lines.
- Running `git rev-parse` and `git config` and trimming the configured prefix
  (`src/main.rs`): process execution; the prefix is a parameter of the model.
- Extracting the ticket from the branch name: `src/ticket_number` is not part of this
  model; the ticket is a parameter.
- Command-line arguments, path handling and exit codes (`src/environment/mod.rs`,
  `src/main.rs`): operating-system interaction.
- Rust strings are UTF-8 bytes; the model works on characters. For `starts_with("#")`
  and `contains` on valid UTF-8 the two readings agree.
- Rust's `Vec::insert` panics on an index past the end; the index used is always a valid
  line index, so the panic cannot happen and is not modelled.
