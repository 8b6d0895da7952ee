/** The label manager panel: the in-memory list of the signed-in user's
    labels and the add, delete, fetch and Enter-key handlers over it. Each
    handler takes the reply of its backend call as an input and returns the
    panel afterwards together with the request it sent (if any) and the list
    it handed to the `onLabelsChange` listener (if any).
 */
module LabelManager {
  import opened Backend
  import Text
  import AuthContext

  /** A row of the `labels` table. */
  datatype Label = Label(id: string, userId: string, name: string, color: string, createdAt: string)

  /** The record sent to the backend by an insert. */
  datatype NewLabel = NewLabel(userId: string, name: string, color: string)

  /** The colour palette offered by the panel, in display order. */
  const Palette: seq<string> :=
    ["#dc2626", "#ea580c", "#ca8a04", "#059669", "#0891b2", "#2563eb", "#7c3aed", "#be185d", "#6b7280"]

  /** The colour selected when the panel opens and after every successful add. */
  const DefaultColor: string := Palette[0]

  /** The panel's React state. */
  datatype Panel = Panel(labels: seq<Label>, name: string, color: string, loading: bool, error: string)

  /** The messages the panel shows. */
  datatype Problem = NameRequired | NameTaken | CreateFailed | DeleteFailed | FetchFailed | Unexpected

  function Message(p: Problem): string {
    match p
    case NameRequired => "請輸入標籤名稱"
    case NameTaken => "標籤名稱已存在"
    case CreateFailed => "建立標籤失敗"
    case DeleteFailed => "刪除標籤失敗"
    case FetchFailed => "獲取標籤失敗"
    case Unexpected => "發生未預期的錯誤"
  }

  /** The case-insensitive comparison key of a label name. */
  function Key(name: string): string {
    Text.ToLower(name)
  }

  /** `labels.find(label => label.name.toLowerCase() === want)`, as the
      index of the first label it returns. */
  function Find(labels: seq<Label>, want: string): (r: Option<nat>)
    ensures r.Some? ==> r.value < |labels| && Key(labels[r.value].name) == want
    ensures r.Some? ==> forall k :: 0 <= k < r.value ==> Key(labels[k].name) != want
    ensures r.None? <==> forall k :: 0 <= k < |labels| ==> Key(labels[k].name) != want
  {
    if labels == [] then None
    else if Key(labels[0].name) == want then Some(0)
    else
      match Find(labels[1..], want)
      case None => None
      case Some(i) => Some(i + 1)
  }

  /** The existing label a new name clashes with: the first whose lower-cased
      name equals the lower-cased trim of the new name. */
  function Clash(labels: seq<Label>, name: string): Option<nat> {
    Find(labels, Key(Text.Trim(name)))
  }

  /** `labels.filter(label => label.id !== id)`. */
  function Without(labels: seq<Label>, id: string): (r: seq<Label>)
    ensures |r| <= |labels|
    ensures forall l :: l in r <==> l in labels && l.id != id
  {
    if labels == [] then []
    else if labels[0].id == id then Without(labels[1..], id)
    else [labels[0]] + Without(labels[1..], id)
  }

  /** The two guards of `addLabel`, in order: a missing user or a blank
      name needs a name; otherwise a name whose lower-cased trim equals the
      lower-cased name of an existing label is taken. */
  function Admit(labels: seq<Label>, user: Option<AuthContext.User>, name: string): (r: Option<Problem>)
    ensures r == Some(NameRequired) <==> user.None? || Text.IsBlank(name)
    ensures r == Some(NameTaken) <==> user.Some? && !Text.IsBlank(name) && Clash(labels, name).Some?
    ensures r.None? <==> user.Some? && !Text.IsBlank(name) && Clash(labels, name).None?
  {
    if user.None? || Text.IsBlank(name) then Some(NameRequired)
    else if Clash(labels, name).Some? then Some(NameTaken)
    else None
  }

  /** What one add attempt produced. */
  datatype AddResult = AddResult(panel: Panel, sent: Option<NewLabel>, notified: Option<seq<Label>>)

  /** `addLabel`: a rejected name shows its error and changes nothing else:
      the list, the form and the loading flag are untouched and nothing is
      sent. An admitted name is sent trimmed, in the selected colour, for the
      current user; on success the row the backend returns is appended, the
      form is reset and the listener (when one is attached) is notified with
      the new list; on failure the list and form stay and the error shows. */
  function AddLabel(p: Panel, user: Option<AuthContext.User>, reply: Reply<Label>, listening: bool): (r: AddResult)
    ensures Admit(p.labels, user, p.name).Some? ==>
              r == AddResult(p.(error := Message(Admit(p.labels, user, p.name).value)), None, None)
    ensures r.sent.Some? <==> Admit(p.labels, user, p.name).None?
    ensures r.sent.Some? ==> r.sent.value == NewLabel(user.value.id, Text.Trim(p.name), p.color)
    ensures r.sent.Some? ==> !r.panel.loading
    ensures r.sent.Some? && reply.Ok? ==>
              && r.panel == Panel(p.labels + [reply.value], "", DefaultColor, false, "")
              && r.notified == (if listening then Some(r.panel.labels) else None)
    ensures r.sent.Some? && !reply.Ok? ==>
              && r.panel.labels == p.labels && r.panel.name == p.name && r.panel.color == p.color
              && r.panel.error == Message(if reply.Failed? then CreateFailed else Unexpected)
              && r.notified.None?
  {
    match Admit(p.labels, user, p.name)
    case Some(problem) => AddResult(p.(error := Message(problem)), None, None)
    case None =>
      var row := NewLabel(user.value.id, Text.Trim(p.name), p.color);
      match reply
      case Ok(data) =>
        var labels := p.labels + [data];
        AddResult(Panel(labels, "", DefaultColor, false, ""), Some(row), if listening then Some(labels) else None)
      case Failed(_) =>
        AddResult(p.(loading := false, error := Message(CreateFailed)), Some(row), None)
      case Threw(_) =>
        AddResult(p.(loading := false, error := Message(Unexpected)), Some(row), None)
  }

  /** What one delete attempt produced. */
  datatype DeleteResult = DeleteResult(panel: Panel, sent: Option<string>, notified: Option<seq<Label>>)

  /** `deleteLabel`: a declined confirmation changes nothing and sends
      nothing; otherwise the id is sent, and on success every label with that
      id is dropped from the list (the rest keep their order) and the
      listener is notified; a failed or thrown call leaves the list as it was. */
  function DeleteLabel(p: Panel, id: string, confirmed: bool, reply: Reply<()>, listening: bool): (r: DeleteResult)
    ensures !confirmed ==> r == DeleteResult(p, None, None)
    ensures confirmed ==> r.sent == Some(id) && !r.panel.loading
    ensures confirmed && reply.Ok? ==>
              && r.panel == p.(labels := Without(p.labels, id), loading := false, error := "")
              && r.notified == (if listening then Some(r.panel.labels) else None)
    ensures confirmed && !reply.Ok? ==>
              && r.panel == p.(loading := false, error := Message(if reply.Failed? then DeleteFailed else Unexpected))
              && r.notified.None?
  {
    if !confirmed then DeleteResult(p, None, None)
    else
      match reply
      case Ok(_) =>
        var labels := Without(p.labels, id);
        DeleteResult(p.(labels := labels, loading := false, error := ""), Some(id), if listening then Some(labels) else None)
      case Failed(_) =>
        DeleteResult(p.(loading := false, error := Message(DeleteFailed)), Some(id), None)
      case Threw(_) =>
        DeleteResult(p.(loading := false, error := Message(Unexpected)), Some(id), None)
  }

  /** `handleKeyPress`: Enter with a non-blank name runs `addLabel`; any
      other key, or Enter on a blank name, does nothing at all. */
  function KeyPress(p: Panel, key: string, user: Option<AuthContext.User>, reply: Reply<Label>, listening: bool): (r: AddResult)
    ensures key != "Enter" || Text.IsBlank(p.name) ==> r == AddResult(p, None, None)
    ensures key == "Enter" && !Text.IsBlank(p.name) ==> r == AddLabel(p, user, reply, listening)
  {
    if key == "Enter" && !Text.IsBlank(p.name) then AddLabel(p, user, reply, listening)
    else AddResult(p, None, None)
  }

  /** What one fetch produced: the panel, and the user id the rows were
      queried by (if a query was made). */
  datatype Fetched = Fetched(panel: Panel, queried: Option<string>)

  /** `fetchLabels`: with no user nothing happens and nothing is queried;
      otherwise the signed-in user's rows are queried, the list is replaced
      by the rows the backend returns (none when it returns no data), and a
      failed or thrown query keeps the list and reports the problem. */
  function FetchLabels(p: Panel, user: Option<AuthContext.User>, reply: Reply<Option<seq<Label>>>): (r: Fetched)
    ensures r.queried.Some? <==> user.Some?
    ensures r.queried.Some? ==> r.queried.value == user.value.id
    ensures user.None? ==> r.panel == p
    ensures user.Some? ==> !r.panel.loading && r.panel.name == p.name && r.panel.color == p.color
    ensures user.Some? && reply.Ok? ==>
              r.panel.labels == (if reply.value.Some? then reply.value.value else []) && r.panel.error == p.error
    ensures user.Some? && !reply.Ok? ==>
              r.panel.labels == p.labels && r.panel.error == Message(if reply.Failed? then FetchFailed else Unexpected)
  {
    match user
    case None => Fetched(p, None)
    case Some(u) =>
      var panel :=
        match reply
        case Ok(data) => p.(labels := if data.Some? then data.value else [], loading := false)
        case Failed(_) => p.(loading := false, error := Message(FetchFailed))
        case Threw(_) => p.(loading := false, error := Message(Unexpected));
      Fetched(panel, Some(u.id))
  }

  /** The synchronous part of `addLabel`: the panel while the insert is
      awaited, and the record sent (if any). */
  datatype Started = Started(panel: Panel, sent: Option<NewLabel>)

  /** `addLabel` up to the await: a rejected name shows its error and sends
      nothing; an admitted one sets loading, clears the error and sends the
      trimmed name in the selected colour for the current user. */
  function AddStart(p: Panel, user: Option<AuthContext.User>): (r: Started)
    ensures r.sent.Some? <==> Admit(p.labels, user, p.name).None?
    ensures r.sent.None? ==> r.panel == p.(error := Message(Admit(p.labels, user, p.name).value))
    ensures r.sent.Some? ==>
              && r.sent.value == NewLabel(user.value.id, Text.Trim(p.name), p.color)
              && r.panel == p.(loading := true, error := "")
  {
    match Admit(p.labels, user, p.name)
    case Some(problem) => Started(p.(error := Message(problem)), None)
    case None => Started(p.(loading := true, error := ""), Some(NewLabel(user.value.id, Text.Trim(p.name), p.color)))
  }

  /** The part of `addLabel` after the await: the panel afterwards and the
      list handed to the listener. */
  datatype Settled = Settled(panel: Panel, notified: Option<seq<Label>>)

  /** `addLabel` after the await, applied to the panel as it is then.
      `snapshot` is the list the handler saw when it started: the state update
      appends to the current list (`prev => [...prev, data]`), but the
      listener receives `[...labels, data]` over the snapshot. */
  function AddSettle(p: Panel, snapshot: seq<Label>, reply: Reply<Label>, listening: bool): (r: Settled)
    ensures !r.panel.loading
    ensures reply.Ok? ==>
              && r.panel == p.(labels := p.labels + [reply.value], name := "", color := DefaultColor, loading := false)
              && r.notified == (if listening then Some(snapshot + [reply.value]) else None)
    ensures !reply.Ok? ==>
              && r.panel == p.(loading := false, error := Message(if reply.Failed? then CreateFailed else Unexpected))
              && r.notified.None?
  {
    match reply
    case Ok(data) =>
      Settled(p.(labels := p.labels + [data], name := "", color := DefaultColor, loading := false),
              if listening then Some(snapshot + [data]) else None)
    case Failed(_) => Settled(p.(loading := false, error := Message(CreateFailed)), None)
    case Threw(_) => Settled(p.(loading := false, error := Message(Unexpected)), None)
  }

  /** When nothing else happens while the insert is awaited, `addLabel` is
      its start followed by its settle on the panel the start left. */
  lemma AddLabelIsStartThenSettle(p: Panel, user: Option<AuthContext.User>, reply: Reply<Label>, listening: bool)
    ensures var s := AddStart(p, user);
            var t := AddSettle(s.panel, p.labels, reply, listening);
            AddLabel(p, user, reply, listening) ==
              if s.sent.None? then AddResult(s.panel, None, None) else AddResult(t.panel, s.sent, t.notified)
  {
  }

  /** `handleKeyPress` up to the await of the add it starts. It consults the
      name but not `loading`. */
  function KeyPressStart(p: Panel, key: string, user: Option<AuthContext.User>): (r: Started)
    ensures key != "Enter" || Text.IsBlank(p.name) ==> r == Started(p, None)
    ensures key == "Enter" && !Text.IsBlank(p.name) ==> r == AddStart(p, user)
  {
    if key == "Enter" && !Text.IsBlank(p.name) then AddStart(p, user) else Started(p, None)
  }

  /** The key handler with the add button's guard (`disabled={... || loading}`):
      nothing starts while an add is awaited. */
  function GuardedKeyPressStart(p: Panel, key: string, user: Option<AuthContext.User>): (r: Started)
    ensures p.loading ==> r == Started(p, None)
    ensures !p.loading ==> r == KeyPressStart(p, key, user)
  {
    if p.loading then Started(p, None) else KeyPressStart(p, key, user)
  }

  /** The list holds trimmed, non-empty names no two of which are equal
      ignoring case. */
  ghost predicate Canonical(labels: seq<Label>) {
    && (forall i :: 0 <= i < |labels| ==> labels[i].name != [] && Text.IsTrimmed(labels[i].name))
    && (forall i, j :: 0 <= i < j < |labels| ==> Key(labels[i].name) != Key(labels[j].name))
  }

  /** Inserting a trimmed, non-empty name whose key is new anywhere in a
      canonical list keeps it canonical. */
  lemma InsertKeepsCanonical(a: seq<Label>, row: Label, b: seq<Label>)
    requires Canonical(a + b)
    requires row.name != [] && Text.IsTrimmed(row.name)
    requires forall k :: 0 <= k < |a| ==> Key(a[k].name) != Key(row.name)
    requires forall k :: 0 <= k < |b| ==> Key(b[k].name) != Key(row.name)
    ensures Canonical(a + [row] + b)
  {
    var ab := a + b;
    var all := a + [row] + b;
    forall i | 0 <= i < |all| && i != |a|
      ensures all[i] == ab[if i < |a| then i else i - 1]
    {
    }
    forall i | 0 <= i < |all|
      ensures all[i].name != [] && Text.IsTrimmed(all[i].name)
    {
    }
    forall i, j | 0 <= i < j < |all|
      ensures Key(all[i].name) != Key(all[j].name)
    {
    }
  }

  /** The case of `InsertKeepsCanonical` at the front of the list. */
  lemma PrependKeepsCanonical(row: Label, labels: seq<Label>)
    requires Canonical(labels)
    requires row.name != [] && Text.IsTrimmed(row.name)
    requires forall k :: 0 <= k < |labels| ==> Key(labels[k].name) != Key(row.name)
    ensures Canonical([row] + labels)
  {
    assert [] + labels == labels;
    InsertKeepsCanonical([], row, labels);
    assert [] + [row] + labels == [row] + labels;
  }

  /** A name `Admit` lets through trims to a non-empty, trimmed name whose
      key no label in the list already has: exactly what a row must carry to
      be appended to a canonical list. */
  lemma AdmittedNameFits(labels: seq<Label>, user: Option<AuthContext.User>, name: string)
    requires Admit(labels, user, name).None?
    ensures Text.Trim(name) != [] && Text.IsTrimmed(Text.Trim(name))
    ensures forall k :: 0 <= k < |labels| ==> Key(labels[k].name) != Key(Text.Trim(name))
  {
    Text.BlankIffTrimEmpty(name);
  }

  /** A successful add appends one row to the list (see `AddLabel`), and only
      for a name `Admit` lets through: not blank and with no clash. When the
      returned row carries that name trimmed, as sent, the longer list is
      still canonical. */
  lemma AddKeepsCanonical(labels: seq<Label>, name: string, row: Label)
    requires Canonical(labels)
    requires !Text.IsBlank(name) && Clash(labels, name).None?
    requires row.name == Text.Trim(name)
    ensures Canonical(labels + [row])
  {
    Text.BlankIffTrimEmpty(name);
    assert labels + [] == labels;
    InsertKeepsCanonical(labels, row, []);
    assert labels + [row] + [] == labels + [row];
  }

  /** Filtering keeps the list canonical: what remains is drawn from it. */
  lemma {:induction false} WithoutKeepsCanonical(labels: seq<Label>, id: string)
    requires Canonical(labels)
    ensures Canonical(Without(labels, id))
  {
    if labels != [] {
      var rest := labels[1..];
      assert Canonical(rest) by {
        forall i, j | 0 <= i < j < |rest|
          ensures Key(rest[i].name) != Key(rest[j].name)
        {
          assert rest[i] == labels[i + 1] && rest[j] == labels[j + 1];
        }
      }
      WithoutKeepsCanonical(rest, id);
      if labels[0].id != id {
        var w := Without(rest, id);
        forall k | 0 <= k < |w|
          ensures Key(w[k].name) != Key(labels[0].name)
        {
          assert w[k] in rest;
          var j :| 0 <= j < |rest| && rest[j] == w[k];
          assert rest[j] == labels[j + 1];
        }
        PrependKeepsCanonical(labels[0], w);
      }
    }
  }

  /** `Without` distributes over concatenation: together with its value on
      one label this pins it down as the order-preserving filter. */
  lemma {:induction false} WithoutAppend(a: seq<Label>, b: seq<Label>, id: string)
    ensures Without(a + b, id) == Without(a, id) + Without(b, id)
  {
    if a == [] {
      assert a + b == b;
    } else {
      assert (a + b)[0] == a[0];
      assert (a + b)[1..] == a[1..] + b;
      WithoutAppend(a[1..], b, id);
    }
  }

  /** Deleting an id twice is deleting it once. */
  lemma {:induction false} WithoutIdempotent(labels: seq<Label>, id: string)
    ensures Without(Without(labels, id), id) == Without(labels, id)
  {
    if labels != [] {
      WithoutIdempotent(labels[1..], id);
      if labels[0].id != id {
        assert Without(labels, id) == [labels[0]] + Without(labels[1..], id);
        assert ([labels[0]] + Without(labels[1..], id))[1..] == Without(labels[1..], id);
      }
    }
  }

  /** Deleting the id of the row a successful add appended, when no earlier
      label shares that id, gives back the list from before the add. */
  lemma DeleteUndoesAdd(labels: seq<Label>, row: Label)
    requires forall k :: 0 <= k < |labels| ==> labels[k].id != row.id
    ensures Without(labels + [row], row.id) == labels
  {
    WithoutAppend(labels, [row], row.id);
    WithoutKeepsAll(labels, row.id);
    assert Without([row], row.id) == [];
  }

  /** With no label carrying `id`, `Without` returns the list unchanged. */
  lemma {:induction false} WithoutKeepsAll(labels: seq<Label>, id: string)
    requires forall k :: 0 <= k < |labels| ==> labels[k].id != id
    ensures Without(labels, id) == labels
  {
    if labels != [] {
      WithoutKeepsAll(labels[1..], id);
      assert labels == [labels[0]] + labels[1..];
    }
  }

  /** A key press sends an insert exactly when it is Enter and `addLabel`'s
      guards admit the name; the list changes, and the listener hears of it,
      only after an insert was sent and answered without error. */
  lemma KeyPressSendsIffAdmitted(p: Panel, key: string, user: Option<AuthContext.User>, reply: Reply<Label>, listening: bool)
    ensures KeyPress(p, key, user, reply, listening).sent.Some? <==> key == "Enter" && Admit(p.labels, user, p.name).None?
    ensures KeyPress(p, key, user, reply, listening).panel.labels != p.labels ==>
              KeyPress(p, key, user, reply, listening).sent.Some? && reply.Ok?
    ensures KeyPress(p, key, user, reply, listening).notified.Some? ==>
              KeyPress(p, key, user, reply, listening).sent.Some? && reply.Ok?
  {
  }

  /** As written, a second Enter while the first insert is awaited passes
      the duplicate check against the unchanged list and sends the same
      record again. If the backend accepts both, the list holds two labels
      with the same name, and the listener is last told a list that lacks
      the first of them. */
  lemma DoubleEnterAddsTwice(p: Panel, user: Option<AuthContext.User>, row1: Label, row2: Label, listening: bool)
    requires Admit(p.labels, user, p.name).None?
    requires row1.name == row2.name
    ensures var s1 := KeyPressStart(p, "Enter", user);
            var s2 := KeyPressStart(s1.panel, "Enter", user);
            var t1 := AddSettle(s2.panel, p.labels, Ok(row1), listening);
            var t2 := AddSettle(t1.panel, s1.panel.labels, Ok(row2), listening);
            && s1.sent.Some? && s2.sent == s1.sent
            && t2.panel.labels == p.labels + [row1, row2]
            && !Canonical(t2.panel.labels)
            && (listening ==> t2.notified == Some(p.labels + [row2]))
  {
    DoubleEnterSettles(p, user, row1, row2, listening);
    var all := p.labels + [row1, row2];
    assert all[|p.labels|] == row1 && all[|p.labels| + 1] == row2;
    TwinsBreakCanonical(all, |p.labels|, |p.labels| + 1);
  }

  /** Both inserts of a double Enter, answered in order, append to the
      current list; the second listener call uses the list its handler saw. */
  lemma DoubleEnterSettles(p: Panel, user: Option<AuthContext.User>, row1: Label, row2: Label, listening: bool)
    requires Admit(p.labels, user, p.name).None?
    ensures var s1 := KeyPressStart(p, "Enter", user);
            var s2 := KeyPressStart(s1.panel, "Enter", user);
            var t1 := AddSettle(s2.panel, p.labels, Ok(row1), listening);
            var t2 := AddSettle(t1.panel, s1.panel.labels, Ok(row2), listening);
            && t2.panel.labels == p.labels + [row1, row2]
            && (listening ==> t2.notified == Some(p.labels + [row2]))
  {
    SecondEnterResends(p, user);
    var s1 := KeyPressStart(p, "Enter", user);
    SettleTwice(KeyPressStart(s1.panel, "Enter", user).panel, p.labels, row1, row2, listening);
  }

  /** Two successful settles in a row append both rows to the panel's list,
      whatever list each handler saw. */
  lemma SettleTwice(q: Panel, snapshot: seq<Label>, row1: Label, row2: Label, listening: bool)
    ensures var t1 := AddSettle(q, snapshot, Ok(row1), listening);
            var t2 := AddSettle(t1.panel, snapshot, Ok(row2), listening);
            && t2.panel.labels == q.labels + [row1, row2]
            && (listening ==> t2.notified == Some(snapshot + [row2]))
  {
    assert q.labels + [row1] + [row2] == q.labels + [row1, row2];
  }

  /** The first Enter on an admitted name leaves the list and the name as
      they were while its insert is awaited, so a second Enter is admitted
      too and sends the same record. */
  lemma SecondEnterResends(p: Panel, user: Option<AuthContext.User>)
    requires Admit(p.labels, user, p.name).None?
    ensures var s1 := KeyPressStart(p, "Enter", user);
            && s1.sent.Some? && s1.panel.labels == p.labels && s1.panel.loading
            && KeyPressStart(s1.panel, "Enter", user).sent == s1.sent
            && KeyPressStart(s1.panel, "Enter", user).panel.labels == p.labels
  {
    var s1 := KeyPressStart(p, "Enter", user);
    assert s1.panel == p.(loading := true, error := "");
    assert Admit(s1.panel.labels, user, s1.panel.name) == Admit(p.labels, user, p.name);
  }

  /** Two labels with the same name, at any two positions, never sit in a
      canonical list. */
  lemma TwinsBreakCanonical(labels: seq<Label>, i: nat, j: nat)
    requires i < j < |labels| && labels[i].name == labels[j].name
    ensures !Canonical(labels)
  {
  }

  /** With the guard, the second Enter sends nothing: the insert is sent
      once, the list gains one row, and the listener is told the list the
      panel holds. */
  lemma GuardedDoubleEnterAddsOnce(p: Panel, user: Option<AuthContext.User>, row: Label, listening: bool)
    requires !p.loading
    requires Admit(p.labels, user, p.name).None?
    ensures var s1 := GuardedKeyPressStart(p, "Enter", user);
            var s2 := GuardedKeyPressStart(s1.panel, "Enter", user);
            var t := AddSettle(s2.panel, p.labels, Ok(row), listening);
            && s1.sent.Some? && s2.sent.None?
            && t.panel.labels == p.labels + [row]
            && (listening ==> t.notified == Some(t.panel.labels))
  {
  }
}
