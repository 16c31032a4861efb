/** The recipient list of the e-mail report dialog (src/components/EmailReportDialog.tsx): the
    editing operations, the address check, the choice of recipients and the state after sending
    or cancelling. The request to the report service is an input: its outcome is a parameter. */
module EmailReportDialog {
  import opened Common
  import opened Text
  import opened Sequences

  // ---------------------------------------------------------------- editing

  /** The list a fresh dialog shows: one empty field. */
  const InitialEmails: seq<string> := [""]

  /** `addEmailField`: one more empty field at the end. */
  function AddEmailField(emails: seq<string>): (r: seq<string>)
    ensures |r| == |emails| + 1
    ensures r[..|emails|] == emails && r[|emails|] == ""
  {
    emails + [""]
  }

  /** `emails.filter((_, i) => i !== index)`: every entry except the one at `index`. */
  function WithoutIndex(s: seq<string>, index: int): (r: seq<string>)
    ensures 0 <= index < |s| ==> r == s[..index] + s[index + 1..]
    ensures !(0 <= index < |s|) ==> r == s
  {
    if s == [] then []
    else
      assert s == [s[0]] + s[1..];
      (if index == 0 then [] else [s[0]]) + WithoutIndex(s[1..], index - 1)
  }

  /** `removeEmailField`: drops the entry at `index` unless it is the only one; an index outside
      the list removes nothing. */
  function RemoveEmailField(emails: seq<string>, index: int): (r: seq<string>)
    ensures |emails| > 1 && 0 <= index < |emails| ==> r == emails[..index] + emails[index + 1..]
    ensures !(|emails| > 1 && 0 <= index < |emails|) ==> r == emails
    ensures |emails| >= 1 ==> |r| >= 1
  {
    if |emails| > 1 then WithoutIndex(emails, index) else emails
  }

  /** `updateEmail`: the entry at `index` becomes `value`; the others and the length stay. */
  function UpdateEmail(emails: seq<string>, index: int, value: string): (r: seq<string>)
    requires 0 <= index < |emails|
    ensures |r| == |emails| && r[index] == value
    ensures forall j :: 0 <= j < |emails| && j != index ==> r[j] == emails[j]
  {
    emails[index := value]
  }

  // ---------------------------------------------------------------- validation

  /** A character `[^\s@]` accepts. */
  predicate PlainChar(c: char) {
    !IsWhitespace(c) && c != '@'
  }

  /** A non-empty run of such characters, `[^\s@]+`. */
  predicate Piece(s: string) {
    |s| > 0 && forall k :: 0 <= k < |s| ==> PlainChar(s[k])
  }

  /** The pattern `^[^\s@]+@[^\s@]+\.[^\s@]+$` matches: the text splits at an '@' (position `i`)
      and a later '.' (position `j`) into three such runs. */
  ghost predicate MatchesPattern(s: string) {
    exists i, j :: 0 <= i < j < |s| && s[i] == '@' && s[j] == '.'
                   && Piece(s[..i]) && Piece(s[i + 1..j]) && Piece(s[j + 1..])
  }

  /** Some '.' with a character on each side. */
  predicate HasInnerDot(d: string) {
    exists j :: 0 < j < |d| - 1 && d[j] == '.'
  }

  /** `validateEmail`: no whitespace, exactly one '@' with something before it, and after it a
      '.' that is neither the first nor the last character. */
  function ValidateEmail(s: string): bool {
    var at := IndexOf(s, '@');
    NoWhitespace(s) && 0 < at < |s| && '@' !in s[at + 1..] && HasInnerDot(s[at + 1..])
  }

  /** The scan accepts exactly the strings the pattern matches. */
  lemma ValidateEmailMatches(s: string)
    ensures ValidateEmail(s) <==> MatchesPattern(s)
  {
    if ValidateEmail(s) {
      ValidImpliesMatch(s);
    }
    if MatchesPattern(s) {
      var i, j :| 0 <= i < j < |s| && s[i] == '@' && s[j] == '.'
                  && Piece(s[..i]) && Piece(s[i + 1..j]) && Piece(s[j + 1..]);
      MatchImpliesValid(s, i, j);
    }
  }

  lemma ValidImpliesMatch(s: string)
    requires ValidateEmail(s)
    ensures MatchesPattern(s)
  {
    var at := IndexOf(s, '@');
    var d := s[at + 1..];
    var j :| 0 < j < |d| - 1 && d[j] == '.';
    var dot := at + 1 + j;
    assert s[dot] == '.';
    assert Piece(s[..at]) by {
      forall k | 0 <= k < at ensures PlainChar(s[..at][k]) {
        assert !IsWhitespace(s[k]);
      }
    }
    var mid, tail := s[at + 1..dot], s[dot + 1..];
    forall k | 0 <= k < |mid| ensures PlainChar(mid[k]) {
      assert mid[k] == d[k] == s[at + 1 + k];
      assert !IsWhitespace(s[at + 1 + k]);
    }
    forall k | 0 <= k < |tail| ensures PlainChar(tail[k]) {
      assert tail[k] == d[j + 1 + k] == s[dot + 1 + k];
      assert !IsWhitespace(s[dot + 1 + k]);
    }
    assert Piece(mid) && Piece(tail);
  }

  lemma MatchImpliesValid(s: string, i: int, j: int)
    requires 0 <= i < j < |s| && s[i] == '@' && s[j] == '.'
    requires Piece(s[..i]) && Piece(s[i + 1..j]) && Piece(s[j + 1..])
    ensures ValidateEmail(s)
  {
    forall k | 0 <= k < i ensures s[k] != '@' {
      assert s[..i][k] == s[k];
    }
    assert IndexOf(s, '@') == i;
    forall k | 0 <= k < |s| ensures !IsWhitespace(s[k]) {
      if k < i {
        assert s[..i][k] == s[k];
      } else if i < k < j {
        assert s[i + 1..j][k - i - 1] == s[k];
      } else if j < k {
        assert s[j + 1..][k - j - 1] == s[k];
      }
    }
    var d := s[i + 1..];
    forall k | 0 <= k < |d| ensures d[k] != '@' {
      if k < j - i - 1 {
        assert s[i + 1..j][k] == d[k];
      } else if k > j - i - 1 {
        assert s[j + 1..][k - (j - i)] == d[k];
      }
    }
    assert d[j - i - 1] == '.';
  }

  // ---------------------------------------------------------------- recipients

  /** An entry is a recipient when, with surrounding white space removed, it is non-empty and
      passes the validator. */
  predicate Acceptable(e: string) {
    Trim(e) != [] && ValidateEmail(Trim(e))
  }

  /** The entries worth sending to, untrimmed, in order, each as often as it was entered. */
  function ValidRecipients(emails: seq<string>): (r: seq<string>)
    ensures forall x :: multiset(r)[x] == if Acceptable(x) then multiset(emails)[x] else 0
    ensures forall i :: 0 <= i < |r| ==> ValidateEmail(Trim(r[i]))
  {
    FilterBy(emails, Acceptable)
  }

  /** The emptiness test is redundant: a valid address is never empty. */
  lemma AcceptableIsValidTrim(e: string)
    ensures Acceptable(e) <==> ValidateEmail(Trim(e))
  {
  }

  // ---------------------------------------------------------------- the dialog

  datatype Dialog = Dialog(open: bool, emails: seq<string>, sending: bool)

  const InitialDialog: Dialog := Dialog(false, InitialEmails, false)

  /** What the report service answers: `{ error }` unset, or an error. */
  datatype Outcome = Delivered | Failed(message: string)

  /** `handleSendReport`: the new state and the recipient list handed to the service, if any.
      Without a valid recipient nothing is sent and nothing changes; after a delivery the dialog
      closes and the list is back to one empty field; after a failure only `sending` is reset. */
  function HandleSend(d: Dialog, outcome: Outcome): (r: (Dialog, Option<seq<string>>))
    ensures ValidRecipients(d.emails) == [] ==> r.0 == d && r.1 == None
    ensures ValidRecipients(d.emails) != [] ==> r.1 == Some(ValidRecipients(d.emails)) && !r.0.sending
    ensures ValidRecipients(d.emails) != [] && outcome == Delivered ==> r.0 == Dialog(false, InitialEmails, false)
    ensures ValidRecipients(d.emails) != [] && outcome.Failed? ==> r.0 == d.(sending := false)
  {
    var valid := ValidRecipients(d.emails);
    if valid == [] then (d, None)
    else
      match outcome
      case Delivered => (Dialog(false, InitialEmails, false), Some(valid))
      case Failed(_) => (d.(sending := false), Some(valid))
  }

  /** The user's actions. Open and Dismiss are the dialog's own open-state changes (the trigger
      button, the overlay or Escape); the index of Remove and Update is that of a field on screen. */
  datatype Action = Open | Dismiss | Add | Remove(index: int) | Update(index: int, value: string) | Send(outcome: Outcome) | Cancel

  /** The dialog after one action; Cancel closes it and resets the list, while dismissing it
      keeps the list for the next opening. */
  function Step(d: Dialog, a: Action): (r: Dialog)
    ensures |d.emails| >= 1 ==> |r.emails| >= 1
  {
    match a
    case Open => d.(open := true)
    case Dismiss => d.(open := false)
    case Add => d.(emails := AddEmailField(d.emails))
    case Remove(i) => d.(emails := RemoveEmailField(d.emails, i))
    case Update(i, v) => if 0 <= i < |d.emails| then d.(emails := UpdateEmail(d.emails, i, v)) else d
    case Send(o) => HandleSend(d, o).0
    case Cancel => d.(open := false, emails := InitialEmails)
  }

  /** The dialog after a series of actions. */
  function Run(d: Dialog, actions: seq<Action>): Dialog
    decreases |actions|
  {
    if actions == [] then d else Run(Step(d, actions[0]), actions[1..])
  }

  /** Whatever the user does, the dialog always shows at least one field. */
  lemma {:induction false} NeverEmpty(d: Dialog, actions: seq<Action>)
    requires |d.emails| >= 1
    ensures |Run(d, actions).emails| >= 1
    decreases |actions|
  {
    if actions != [] {
      NeverEmpty(Step(d, actions[0]), actions[1..]);
    }
  }

  /** In particular from the initial dialog. */
  lemma InitialNeverEmpty(actions: seq<Action>)
    ensures |Run(InitialDialog, actions).emails| >= 1
  {
    NeverEmpty(InitialDialog, actions);
  }
}
