/** The commit-message patcher: given the lines of a commit message, the ticket
    identifier taken from the branch name (if any) and a display prefix (if any), it
    makes sure some non-comment line mentions the ticket.  If none does, it adds the
    line `prefix + ticket` just before the first `#` comment line, or at the end when
    the message has no comment line. */
module PatchCommitMsg {
  import opened RustStr

  datatype Option<T> = None | Some(value: T)

  /** `is_service_comment_line`: git strips lines starting with `#` from the message.
      A comment line is exactly a non-empty line whose first character is `#`. */
  function IsServiceCommentLine(line: string): (b: bool)
    ensures b <==> |line| > 0 && line[0] == '#'
  {
    StartsWith(line, "#")
  }

  /** The loop's `found`: scanning from the top, some line that is not a comment
      mentions the ticket. */
  function TicketFound(lines: seq<string>, ticket: string): (b: bool)
    ensures b <==> exists i :: 0 <= i < |lines| && !IsServiceCommentLine(lines[i]) && Contains(lines[i], ticket)
  {
    if |lines| == 0 then false
    else if !IsServiceCommentLine(lines[0]) && Contains(lines[0], ticket) then true
    else TicketFound(lines[1..], ticket)
  }

  /** The index of the first comment line, if there is one (the loop's `first_comment_line`
      when it runs to the end). */
  function FirstComment(lines: seq<string>): (r: Option<nat>)
    ensures r.None? <==> forall j :: 0 <= j < |lines| ==> !IsServiceCommentLine(lines[j])
    ensures r.Some? ==> r.value < |lines| && IsServiceCommentLine(lines[r.value])
    ensures r.Some? ==> forall j :: 0 <= j < r.value ==> !IsServiceCommentLine(lines[j])
  {
    if |lines| == 0 then None
    else if IsServiceCommentLine(lines[0]) then Some(0)
    else match FirstComment(lines[1..])
      case None => None
      case Some(k) => Some(k + 1)
  }

  /** Where the new line goes: before the first comment line, else one past the end. */
  function InsertionIndex(lines: seq<string>): (k: nat)
    ensures k <= |lines|
    ensures k < |lines| <==> FirstComment(lines).Some?
  {
    match FirstComment(lines)
    case None => |lines|
    case Some(k) => k
  }

  /** `format!("{}{}", prefix.unwrap_or(""), ticket)`. */
  function NewLine(ticket: string, prefix: Option<string>): (r: string)
    ensures Contains(r, ticket)
  {
    var p := match prefix case None => "" case Some(s) => s;
    ContainsSuffix(p, ticket);
    p + ticket
  }

  /** The patched message, as a function of the inputs. */
  function Patched(lines: seq<string>, ticket: Option<string>, prefix: Option<string>): (r: seq<string>)
    ensures ticket.None? ==> r == lines
    ensures ticket.Some? && TicketFound(lines, ticket.value) ==> r == lines
    ensures ticket.Some? && !TicketFound(lines, ticket.value) ==>
      |r| == |lines| + 1 && r[InsertionIndex(lines)] == NewLine(ticket.value, prefix)
  {
    match ticket
    case None => lines
    case Some(t) =>
      if TicketFound(lines, t) then lines
      else
        var k := InsertionIndex(lines);
        lines[..k] + [NewLine(t, prefix)] + lines[k..]
  }

  /** `patch_commit_msg`: copies the message, scans it forward once (stopping early when
      a non-comment line already mentions the ticket, and otherwise remembering the first
      comment line), then inserts or pushes the new line. */
  method PatchCommitMsg(commitMsg: seq<string>, ticketNumber: Option<string>, ticketPrefix: Option<string>)
    returns (lines: seq<string>)
    ensures lines == Patched(commitMsg, ticketNumber, ticketPrefix)
  {
    lines := commitMsg;
    match ticketNumber {
      case None =>
      case Some(ticket) =>
        var found := false;
        var firstCommentLine: Option<nat> := None;
        var index := 0;
        while index < |lines|
          invariant 0 <= index <= |lines|
          invariant lines == commitMsg
          invariant forall j :: 0 <= j < index && !IsServiceCommentLine(lines[j]) ==> !Contains(lines[j], ticket)
          invariant firstCommentLine.None? <==> forall j :: 0 <= j < index ==> !IsServiceCommentLine(lines[j])
          invariant firstCommentLine.Some? ==>
            firstCommentLine.value < index && IsServiceCommentLine(lines[firstCommentLine.value])
          invariant firstCommentLine.Some? ==>
            forall j :: 0 <= j < firstCommentLine.value ==> !IsServiceCommentLine(lines[j])
        {
          var line := lines[index];
          if IsServiceCommentLine(line) {
            if firstCommentLine == None {
              firstCommentLine := Some(index);
            }
          } else {
            if Contains(line, ticket) {
              found := true;
              break;
            }
          }
          index := index + 1;
        }
        if !found {
          var newLine := NewLine(ticket, ticketPrefix);
          match firstCommentLine {
            case None =>
              lines := lines + [newLine];
            case Some(k) =>
              lines := lines[..k] + [newLine] + lines[k..];
          }
        }
    }
  }

  // Properties of the patched message

  /** Without a comment line the new line is pushed: every original line keeps its index
      and the new line comes last. */
  lemma AppendedWhenNoComment(lines: seq<string>, ticket: string, prefix: Option<string>)
    requires !TicketFound(lines, ticket)
    requires forall j :: 0 <= j < |lines| ==> !IsServiceCommentLine(lines[j])
    ensures var r := Patched(lines, Some(ticket), prefix);
      |r| == |lines| + 1 && r[..|lines|] == lines && r[|lines|] == NewLine(ticket, prefix)
  {
  }

  /** With a comment line the new line takes the index of the first one: the lines before
      it stay where they were, and every later line moves down by one, in the same order. */
  lemma InsertedBeforeFirstComment(lines: seq<string>, ticket: string, prefix: Option<string>, k: nat)
    requires !TicketFound(lines, ticket)
    requires k < |lines| && IsServiceCommentLine(lines[k])
    requires forall j :: 0 <= j < k ==> !IsServiceCommentLine(lines[j])
    ensures var r := Patched(lines, Some(ticket), prefix);
      |r| == |lines| + 1 && r[k] == NewLine(ticket, prefix) &&
      (forall j :: 0 <= j < k ==> r[j] == lines[j]) &&
      (forall j :: k <= j < |lines| ==> r[j + 1] == lines[j]) &&
      IsServiceCommentLine(r[k + 1])
  {
    assert FirstComment(lines) == Some(k);
    var r := Patched(lines, Some(ticket), prefix);
    assert r == lines[..k] + [NewLine(ticket, prefix)] + lines[k..];
  }

  /** Patching only ever inserts: removing the new line from the result gives back the
      original message. */
  lemma OnlyInserts(lines: seq<string>, ticket: string, prefix: Option<string>)
    requires !TicketFound(lines, ticket)
    ensures var r := Patched(lines, Some(ticket), prefix);
      var k := InsertionIndex(lines);
      r[..k] + r[k + 1..] == lines
  {
  }

  /** Mentions of the ticket inside comment lines never count: if only comments mention
      it, the new line is still added. */
  lemma CommentMentionsIgnored(lines: seq<string>, ticket: string, prefix: Option<string>)
    requires forall i :: 0 <= i < |lines| && Contains(lines[i], ticket) ==> IsServiceCommentLine(lines[i])
    ensures var r := Patched(lines, Some(ticket), prefix);
      |r| == |lines| + 1 && NewLine(ticket, prefix) in r
  {
  }

  /** The point of the hook: unless the new line itself is a comment, the patched message
      always has a non-comment line that mentions the ticket. */
  lemma TicketReferenced(lines: seq<string>, ticket: string, prefix: Option<string>)
    requires !IsServiceCommentLine(NewLine(ticket, prefix))
    ensures TicketFound(Patched(lines, Some(ticket), prefix), ticket)
  {
  }

  /** Patching a second time changes nothing, as long as the new line is not a comment. */
  lemma PatchIdempotent(lines: seq<string>, ticket: string, prefix: Option<string>)
    requires !IsServiceCommentLine(NewLine(ticket, prefix))
    ensures var r := Patched(lines, Some(ticket), prefix);
      Patched(r, Some(ticket), prefix) == r
  {
  }

  /** When the prefix (or an empty prefix and the ticket) starts with `#`, the new line is a
      comment and does not count as a mention: a second run adds a second copy. */
  lemma CommentNewLineRepeats(lines: seq<string>, ticket: string, prefix: Option<string>)
    requires IsServiceCommentLine(NewLine(ticket, prefix))
    requires !TicketFound(lines, ticket)
    ensures var r := Patched(lines, Some(ticket), prefix);
      |Patched(r, Some(ticket), prefix)| == |lines| + 2
  {
  }

  /** The empty ticket occurs in every string, so any non-comment line counts as a mention. */
  lemma EmptyTicketFound(lines: seq<string>, prefix: Option<string>)
    requires exists i :: 0 <= i < |lines| && !IsServiceCommentLine(lines[i])
    ensures Patched(lines, Some(""), prefix) == lines
  {
  }

  // The scenarios of the unit tests

  lemma NoTicketScenario()
    ensures |Patched(["1", "2"], None, None)| == 2
  {
  }

  lemma AddTicketScenario()
    ensures var r := Patched(["1", "2"], Some("ISSUE-123"), None);
      |r| == 3 && r[2] == "ISSUE-123"
  {
  }

  lemma AddTicketWithPrefixScenario()
    ensures var r := Patched(["1", "2"], Some("ISSUE-123"), Some("ISSUE: "));
      |r| == 3 && r[2] == "ISSUE: ISSUE-123"
  {
  }

  lemma TicketInTextScenario()
    ensures |Patched(["1", "blablabla ISSUE-123 blablabla"], Some("ISSUE-123"), None)| == 2
  {
    var line := "blablabla ISSUE-123 blablabla";
    assert OccursAt(line, "ISSUE-123", 10);
    var lines := ["1", line];
    assert lines[1] == line;
    assert TicketFound(lines, "ISSUE-123");
  }

  lemma TicketOnlyInCommentScenario()
    ensures var r := Patched(["1", "# comment ISSUE-123"], Some("ISSUE-123"), None);
      |r| == 3 && r[0] == "1" && r[1] == "ISSUE-123" && r[2] == "# comment ISSUE-123"
  {
    var lines := ["1", "# comment ISSUE-123"];
    InsertedBeforeFirstComment(lines, "ISSUE-123", None, 1);
  }
}
