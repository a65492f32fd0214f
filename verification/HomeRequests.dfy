/**
  What the Home page asks the server for, when it does, and what it takes up again: in terms of the
  text the user wrote and of what the device holds.
 */
module HomeRequests {
  import opened Options
  import opened HomeOutbox
  import opened Text

  const TEAM_PREFIX := "Create one team.\n\n"

  ghost predicate SomethingWritten(s: string) {
    exists c :: c in s && !IsSpace(c)
  }

  // ---------------------------------------------------------------- what is asked for

  lemma CancelPrefix(p: string, a: string, b: string)
    requires p + a == p + b
    ensures a == b
  {
    assert (p + a)[|p|..] == a && (p + b)[|p|..] == b;
  }

  // Two drafts ask for the same in three cases only: work for one agent with one text; no work, of
  // one kind, with one text; or a team, and from an agent's draft the very words a team's adds.
  lemma SameRequestIff(a: HomeDraft, b: HomeDraft)
    ensures RequestFor(a) == RequestFor(b) <==>
      var x, y := Trim(a.prompt), Trim(b.prompt);
      (a.mode == b.mode == WorkMode && a.agentID == b.agentID && x == y) ||
      (a.mode == b.mode != WorkMode && x == y) ||
      (a.mode == TeamMode && b.mode == AgentMode && y == TEAM_PREFIX + x) ||
      (a.mode == AgentMode && b.mode == TeamMode && x == TEAM_PREFIX + y)
  {
    var x, y := Trim(a.prompt), Trim(b.prompt);
    if TEAM_PREFIX + x == TEAM_PREFIX + y {
      CancelPrefix(TEAM_PREFIX, x, y);
    }
  }

  // Work, and only work, goes to the runs, with its agent; either way the text written is asked
  // for as it stands, up to the white space around it, with the prefix in front for a team only.
  lemma RequestSaysTheText(d: HomeDraft)
    ensures var asked := RequestFor(d);
      (asked.path == "/agent-runs" <==> d.mode == WorkMode) &&
      (asked.path == "/authoring/workforce/change-sets" <==> d.mode != WorkMode)
    ensures var body := RequestFor(d).body;
      if d.mode == WorkMode then body.WorkBody? && body.agentID == d.agentID && body.goal == Trim(d.prompt)
      else
        body.ProposalBody? && |body.prompt| >= |Trim(d.prompt)| &&
        var n := |body.prompt| - |Trim(d.prompt)|;
        body.prompt[n..] == Trim(d.prompt) && body.prompt[..n] == if d.mode == TeamMode then TEAM_PREFIX else ""
  {
  }

  // ---------------------------------------------------------------- what a request looks like

  const HEX_DIGITS := "0123456789abcdefABCDEF"

  predicate HexGroup(s: string, n: nat) {
    |s| == n && forall c :: c in s ==> c in HEX_DIGITS
  }

  lemma IsHexIff(c: char)
    ensures IsHex(c) <==> c in HEX_DIGITS
  {
    var n := c as int;
    assert forall k :: 0 <= k < 22 ==> IsHex(HEX_DIGITS[k]);
    if '0' <= c <= '9' { assert HEX_DIGITS[n - 48] == c; }
    if 'a' <= c <= 'f' { assert HEX_DIGITS[n - 97 + 10] == c; }
    if 'A' <= c <= 'F' { assert HEX_DIGITS[n - 65 + 16] == c; }
  }

  predicate Grouped(key: string, a: string, b: string, c: string, d: string, e: string) {
    HexGroup(a, 8) && HexGroup(b, 4) && HexGroup(c, 4) && HexGroup(d, 4) && HexGroup(e, 12) &&
    key == a + "-" + b + "-" + c + "-" + d + "-" + e
  }

  lemma ShapedIsGrouped(key: string)
    requires UuidShaped(key)
    ensures Grouped(key, key[..8], key[9..13], key[14..18], key[19..23], key[24..])
  {
    ShapedHexes(key);
    HexStretch(key, 0, 8);
    HexStretch(key, 9, 13);
    HexStretch(key, 14, 18);
    HexStretch(key, 19, 23);
    HexStretch(key, 24, 36);
    SplitAtHyphens(key);
  }

  lemma ShapedHexes(key: string)
    requires UuidShaped(key)
    ensures forall i :: 0 <= i < 36 && i !in {8, 13, 18, 23} ==> key[i] in HEX_DIGITS
  {
    forall i | 0 <= i < 36 && i !in {8, 13, 18, 23} ensures key[i] in HEX_DIGITS {
      IsHexIff(key[i]);
    }
  }

  lemma SplitAtHyphens(key: string)
    requires |key| == 36 && key[8] == key[13] == key[18] == key[23] == '-'
    ensures key == key[..8] + "-" + key[9..13] + "-" + key[14..18] + "-" + key[19..23] + "-" + key[24..]
  {
    assert key[..8] + "-" == key[..9];
    assert key[..9] + key[9..13] + "-" == key[..14];
    assert key[..14] + key[14..18] + "-" == key[..19];
    assert key[..19] + key[19..23] + "-" == key[..24];
  }

  lemma HexStretch(key: string, i: nat, j: nat)
    requires i <= j <= |key| && forall k :: i <= k < j ==> key[k] in HEX_DIGITS
    ensures HexGroup(key[i..j], j - i)
  {
  }

  // A key is well formed exactly if it is five groups of hexadecimal digits joined by hyphens.
  lemma UuidShapedIff(key: string)
    ensures UuidShaped(key) <==> exists a, b, c, d, e :: Grouped(key, a, b, c, d, e)
  {
    if UuidShaped(key) {
      ShapedIsGrouped(key);
    }
    if exists a, b, c, d, e :: Grouped(key, a, b, c, d, e) {
      var a, b, c, d, e :| Grouped(key, a, b, c, d, e);
      GroupsAreShaped(key, a, b, c, d, e);
    }
  }

  lemma GroupsAreShaped(key: string, a: string, b: string, c: string, d: string, e: string)
    requires Grouped(key, a, b, c, d, e)
    ensures UuidShaped(key)
  {
    forall i | 0 <= i < 36 ensures if i in {8, 13, 18, 23} then key[i] == '-' else IsHex(key[i]) {
      IsHexIff(key[i]);
      if i < 8 { assert key[i] == a[i]; }
      else if 8 < i < 13 { assert key[i] == b[i - 9]; }
      else if 13 < i < 18 { assert key[i] == c[i - 14]; }
      else if 18 < i < 23 { assert key[i] == d[i - 19]; }
      else if 23 < i { assert key[i] == e[i - 24]; }
    }
  }

  // What the form lets through.
  ghost predicate Fit(d: HomeDraft) {
    SomethingWritten(d.prompt) && |d.prompt| <= 16000 && (d.mode == WorkMode ==> SomethingWritten(d.agentID))
  }

  lemma SendableIff(d: HomeDraft)
    ensures Sendable(d) <==> Fit(d)
  {
    BlankIff(d.prompt);
    BlankIff(d.agentID);
  }

  // A window takes up what it finds exactly if it is what the form makes of some draft that it lets
  // through, under a well-formed key. Finding nothing blocks nothing; anything else blocks.
  lemma TakenUpIff(slot: Option<HomeSubmission>, readable: bool)
    ensures var taken := readable && slot.Some? && UuidShaped(slot.value.key) &&
        exists d :: Fit(d) && slot.value == NewSubmission(d, slot.value.key);
      ReadSubmission(slot, readable) == Reading(if taken then slot else None, !taken && !(readable && slot.None?))
  {
    if slot.Some? {
      var s := slot.value;
      SendableIff(s.draft);
      if Acceptable(s) {
        assert s == NewSubmission(s.draft, s.key);
      }
    }
  }

  // ---------------------------------------------------------------- when it is sent

  // A window sends exactly if nothing of its own is under way, it is not blocked, it may, it has
  // a pending request or something fit to send, and the device has room for that and takes it.
  lemma WindowSendsIff(device: Device, win: Window, key: string, permitted: bool, writable: bool)
    ensures var d := HomeDraft(win.prompt, win.mode, win.agentID);
      var sent := if win.pending.Some? then win.pending.value else NewSubmission(d, key);
      var out := Submitted(device, win, key, permitted, writable);
      if (win.flight.None? && !win.blocked && permitted && (win.pending.Some? || Fit(d)) && writable &&
        (device.submission.None? || device.submission == Some(sent))) then
        out == Outcome(device.(submission := Some(sent)), win.(pending := Some(sent), flight := Some(sent)), Some(sent))
      else out == Outcome(device, win, None)
  {
    SendableIff(Composed(win));
  }

  // What an opened window shows: the pending request's text; else the draft on the device; else
  // the text an earlier version left there; else nothing.
  lemma OpenedShows(device: Device, readable: bool, draftReadable: bool, promptReadable: bool)
    ensures var win := Opened(device, readable, draftReadable, promptReadable);
      var shown := HomeDraft(win.prompt, win.mode, win.agentID);
      win.flight.None? && Reading(win.pending, win.blocked) == ReadSubmission(device.submission, readable) &&
      (win.pending.Some? ==> shown == win.pending.value.draft) &&
      (win.pending.None? && draftReadable && device.draft.Some? ==> shown == device.draft.value) &&
      (win.pending.None? && !(draftReadable && device.draft.Some?) ==>
        win.mode == AgentMode && win.agentID == "" &&
        win.prompt == if promptReadable && device.prompt.Some? then device.prompt.value else "")
  {
  }

  // An answer lets a request go exactly if it is the record of what was asked for and all four
  // writes are done; otherwise the window keeps it, with its text, to be sent again.
  lemma AnswerFinishesIff(device: Device, win: Window, record: Record, writes: nat)
    requires win.flight.Some? && win.pending == win.flight
    ensures var asked := win.flight.value;
      var out := Answered(device, win, record, writes);
      if (record.id != "" && record.path == asked.path && record.body == asked.body &&
        device.submission == Some(asked) && writes >= 4) then
        out.window == win.(flight := None, pending := None, prompt := "") &&
        out.device == Device(None, Some(HomeDraft("", asked.draft.mode, asked.draft.agentID)), None,
          if asked.draft.mode == WorkMode then device.proposal else Some(record.id))
      else
        out.window == win.(flight := None) && out.device.submission == device.submission
  {
  }

  // A saved request is forgotten exactly if nothing is under way, and it is the one this window
  // shows, or this window could not read it. The text stays.
  lemma ForgottenIff(device: Device, win: Window, writable: bool)
    ensures var out := Forgotten(device, win, writable);
      if (win.flight.None? && writable &&
        (if win.pending.Some? then device.submission == win.pending else win.blocked)) then
        out == Outcome(device.(submission := None), win.(pending := None, blocked := false), None)
      else out == Outcome(device, win, None)
  {
  }

  // A window that was blocked and reads the slot again is as if it were opened now, except for the
  // text on the screen when nothing is pending.
  lemma RecoveredIsOpened(device: Device, win: Window, readable: bool)
    requires win.blocked && win.flight.None?
    ensures var again, anew := Recovered(device, win, readable), Opened(device, readable, true, true);
      again.pending == anew.pending && again.blocked == anew.blocked && again.flight.None? &&
      if again.pending.Some? then again == anew
      else (again.prompt, again.mode, again.agentID) == (win.prompt, win.mode, win.agentID)
  {
  }

  // The writes that finish a request, in this order: the proposal's id, for a proposal; the text
  // cleared; the text of an earlier version removed; the request removed.
  lemma WritesAreInOrder(device: Device, pending: HomeSubmission, proposalId: Option<string>, writes: nat)
    ensures var after := AfterWrites(device, pending, proposalId, writes);
      (after.proposal == if writes > 0 && proposalId.Some? then proposalId else device.proposal) &&
      (after.draft ==
        if writes > 1 then Some(HomeDraft("", pending.draft.mode, pending.draft.agentID)) else device.draft) &&
      (after.prompt == if writes > 2 then None else device.prompt) &&
      (after.submission == if writes > 3 then None else device.submission)
  {
  }
}
