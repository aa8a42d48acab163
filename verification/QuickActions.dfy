/**
 * Quick actions (apps/api/src/quick-actions.ts): commands in a comment change an issue one after the other, working on
 * a local copy of its row while database and event writes may fail, and leave a timeline that can be replayed.
 */
module QuickActions {
  import opened Wrappers
  import opened Strings
  import Duration

  datatype State = Open | Closed

  datatype LabelDef = LabelDef(id: nat, name: string, color: string)

  datatype MilestoneDef = MilestoneDef(id: nat, number: nat, title: string)

  /** The repository and its users, as the commands look them up; `fold` is `toLowerCase`. */
  datatype World = World(labels: seq<LabelDef>, milestones: seq<MilestoneDef>, users: map<string, nat>, handles: map<nat, string>,
                         fold: string -> string)

  datatype Actor = Actor(id: nat, author: bool, writer: bool) {
    predicate CanModify() { author || writer }
  }

  datatype Command =
    | Close
    | Reopen
    | Title(arg: string)
    | Assign(arg: string)
    | Unassign
    | Label(names: seq<string>)
    | Unlabel(names: seq<string>)
    | Estimate(arg: string)
    | Spend(arg: string)
    | RemoveEstimate
    | RemoveTimeSpent
    | Milestone(arg: string)
    | RemoveMilestone
    | Unknown

  datatype Row = Row(state: State, closedAt: bool, title: string, assignee: Option<nat>, estimate: int, spent: int, milestone: Option<nat>)

  /** The stored row of an issue and the ids of its labels. */
  datatype Issue = Issue(row: Row, labels: set<nat>)

  datatype Event =
    | ClosedEvent
    | ReopenedEvent
    | TitleChanged(from: string, to: string)
    | Assigned(handle: string)
    | Unassigned(handle: string)
    | Labeled(name: string, color: string)
    | Unlabeled(name: string, color: string)
    | Milestoned(title: string, number: nat)
    | Demilestoned(milestone: Option<(string, nat)>)

  datatype Note = Applied | Rejected

  // ------------------------------------------------------------------------- lookups

  function HandleOf(w: World, id: nat): string { if id in w.handles then w.handles[id] else "ghost" }

  function WordLength(s: string): (n: nat)
    ensures n <= |s|
  {
    if s == [] || IsSpace(s[0]) then 0 else 1 + WordLength(s[1..])
  }

  function FirstWord(s: string): string { TrimStart(s)[..WordLength(TrimStart(s))] }

  /** The user an assignment names. */
  function TargetUser(w: World, actor: nat, token: string): Option<(nat, string)>
    requires token != []
  {
    if w.fold(token) == "me" then Some((actor, HandleOf(w, actor)))
    else
      var handle := w.fold(if token[0] == '@' then token[1..] else token);
      if handle in w.users then Some((w.users[handle], handle)) else None
  }

  function FindLabel(w: World, labels: seq<LabelDef>, name: string): (r: Option<LabelDef>)
    ensures r.Some? ==> r.value in labels
  {
    if labels == [] then None
    else if w.fold(labels[0].name) == w.fold(name) then Some(labels[0])
    else FindLabel(w, labels[1..], name)
  }

  function FindTitle(w: World, ms: seq<MilestoneDef>, title: string): (r: Option<MilestoneDef>)
    ensures r.Some? ==> r.value in ms
  {
    if ms == [] then None
    else if w.fold(ms[0].title) == w.fold(title) then Some(ms[0])
    else FindTitle(w, ms[1..], title)
  }

  function FindMilestone(ms: seq<MilestoneDef>, id: nat): (r: Option<MilestoneDef>)
    ensures r.Some? ==> r.value in ms && r.value.id == id
    ensures r.None? ==> forall m :: m in ms ==> m.id != id
  {
    if ms == [] then None else if ms[0].id == id then Some(ms[0]) else FindMilestone(ms[1..], id)
  }

  /** The title in a milestone argument: `%` and quotes taken off. */
  function MilestoneTitle(arg: string): string {
    var t := Trim(arg);
    var s := if t != [] && t[0] == '%' then Trim(t[1..]) else t;
    if |s| >= 2 && (s[0] == '"' || s[0] == '\'') && s[|s| - 1] == s[0] then Trim(s[1..|s| - 1]) else s
  }

  // -------------------------------------------------------- what each command comes to

  datatype Outcome = Outcome(issue: Issue, events: seq<Event>, notes: seq<Note>)

  function Refused(i: Issue): Outcome { Outcome(i, [], [Rejected]) }

  function Nothing(i: Issue): Outcome { Outcome(i, [], [Applied]) }

  function Changed(i: Issue, row: Row, events: seq<Event>): Outcome { Outcome(i.(row := row), events, [Applied]) }

  /** The labels among `names` that exist. */
  function Found(w: World, names: seq<string>): seq<LabelDef> {
    if names == [] then []
    else
      match FindLabel(w, w.labels, names[0])
      case None => Found(w, names[1..])
      case Some(l) => [l] + Found(w, names[1..])
  }

  function Rejections(w: World, names: seq<string>): seq<Note> {
    if names == [] then []
    else (if FindLabel(w, w.labels, names[0]).None? then [Rejected] else []) + Rejections(w, names[1..])
  }

  function Ids(ls: seq<LabelDef>): set<nat> { set l | l in ls :: l.id }

  function AddEvents(labels: set<nat>, ls: seq<LabelDef>): seq<Event>
    decreases |ls|
  {
    if ls == [] then []
    else if ls[0].id in labels then AddEvents(labels, ls[1..])
    else [Labeled(ls[0].name, ls[0].color)] + AddEvents(labels + {ls[0].id}, ls[1..])
  }

  function DropEvents(labels: set<nat>, ls: seq<LabelDef>): seq<Event>
    decreases |ls|
  {
    if ls == [] then []
    else if ls[0].id !in labels then DropEvents(labels, ls[1..])
    else [Unlabeled(ls[0].name, ls[0].color)] + DropEvents(labels - {ls[0].id}, ls[1..])
  }

  function AssignEffect(w: World, who: Actor, i: Issue, token: string): Outcome {
    if !who.CanModify() || token == [] then Refused(i)
    else
      match TargetUser(w, who.id, token)
      case None => Refused(i)
      case Some((id, handle)) =>
        if i.row.assignee == Some(id) then Nothing(i) else Changed(i, i.row.(assignee := Some(id)), [Assigned(handle)])
  }

  function LabelEffect(w: World, who: Actor, i: Issue, names: seq<string>): Outcome {
    if !who.writer || names == [] then Refused(i)
    else
      var found := Found(w, names);
      Outcome(i.(labels := i.labels + Ids(found)), AddEvents(i.labels, found),
              Rejections(w, names) + if Ids(found) <= i.labels then [] else [Applied])
  }

  function UnlabelEffect(w: World, who: Actor, i: Issue, names: seq<string>): Outcome {
    if !who.writer then Refused(i)
    else
      var found := if names == [] then w.labels else Found(w, names);
      Outcome(i.(labels := i.labels - Ids(found)), DropEvents(i.labels, found), if Ids(found) !! i.labels then [] else [Applied])
  }

  function EstimateEffect(who: Actor, i: Issue, minutes: Option<int>): Outcome {
    if !who.writer || minutes.None? || minutes.value < 0 then Refused(i) else Changed(i, i.row.(estimate := minutes.value), [])
  }

  function SpendEffect(who: Actor, i: Issue, delta: Option<int>): Outcome {
    if !who.writer || delta.None? then Refused(i)
    else Changed(i, i.row.(spent := if i.row.spent + delta.value < 0 then 0 else i.row.spent + delta.value), [])
  }

  function MilestoneEffect(w: World, who: Actor, i: Issue, wanted: string): Outcome {
    var found := FindTitle(w, w.milestones, wanted);
    if !who.writer || wanted == [] || found.None? then Refused(i)
    else if i.row.milestone == Some(found.value.id) then Nothing(i)
    else Changed(i, i.row.(milestone := Some(found.value.id)), [Milestoned(found.value.title, found.value.number)])
  }

  /** One command, when nothing fails. */
  function Effect(w: World, who: Actor, i: Issue, cmd: Command): Outcome {
    var row := i.row;
    match cmd
    case Close =>
      if !who.CanModify() then Refused(i) else if row.state == Closed then Nothing(i)
      else Changed(i, row.(state := Closed, closedAt := true), [ClosedEvent])
    case Reopen =>
      if !who.CanModify() then Refused(i) else if row.state == Open then Nothing(i)
      else Changed(i, row.(state := Open, closedAt := false), [ReopenedEvent])
    case Title(arg) =>
      var next := Trim(arg);
      if !who.CanModify() || next == [] then Refused(i) else if next == row.title then Nothing(i)
      else Changed(i, row.(title := next), [TitleChanged(row.title, next)])
    case Assign(arg) => AssignEffect(w, who, i, FirstWord(arg))
    case Unassign =>
      if !who.CanModify() then Refused(i) else if row.assignee == None then Nothing(i)
      else Changed(i, row.(assignee := None), [Unassigned(HandleOf(w, row.assignee.value))])
    case Label(names) => LabelEffect(w, who, i, names)
    case Unlabel(names) => UnlabelEffect(w, who, i, names)
    case Estimate(arg) => EstimateEffect(who, i, Duration.Parsed(arg))
    case Spend(arg) => SpendEffect(who, i, Duration.Parsed(arg))
    case RemoveEstimate =>
      if !who.writer then Refused(i) else if row.estimate == 0 then Nothing(i) else Changed(i, row.(estimate := 0), [])
    case RemoveTimeSpent =>
      if !who.writer then Refused(i) else if row.spent == 0 then Nothing(i) else Changed(i, row.(spent := 0), [])
    case Milestone(arg) => MilestoneEffect(w, who, i, MilestoneTitle(arg))
    case RemoveMilestone =>
      if !who.writer then Refused(i) else if row.milestone == None then Nothing(i)
      else Changed(i, row.(milestone := None), [Demilestoned(MilestoneView(w, row.milestone))])
    case Unknown => Refused(i)
  }

  function Effects(w: World, who: Actor, i: Issue, cmds: seq<Command>): Outcome
    decreases |cmds|
  {
    if cmds == [] then Outcome(i, [], [])
    else
      var first := Effect(w, who, i, cmds[0]);
      var rest := Effects(w, who, first.issue, cmds[1..]);
      Outcome(rest.issue, first.events + rest.events, first.notes + rest.notes)
  }

  // -------------------------------------------------------------- replaying a timeline

  /** What a reader of the timeline sees of an issue. */
  datatype View = View(state: State, title: string, assignee: Option<string>, labels: set<string>, milestone: Option<(string, nat)>)

  function LabelNames(w: World, labels: set<nat>): set<string> { set l | l in w.labels && l.id in labels :: l.name }

  function MilestoneView(w: World, id: Option<nat>): Option<(string, nat)> {
    match id
    case None => None
    case Some(id) =>
      match FindMilestone(w.milestones, id)
      case None => None
      case Some(m) => Some((m.title, m.number))
  }

  function ViewOf(w: World, i: Issue): View {
    View(i.row.state, i.row.title, if i.row.assignee.Some? then Some(HandleOf(w, i.row.assignee.value)) else None,
         LabelNames(w, i.labels), MilestoneView(w, i.row.milestone))
  }

  function Tell(v: View, e: Event): View {
    match e
    case ClosedEvent => v.(state := Closed)
    case ReopenedEvent => v.(state := Open)
    case TitleChanged(_, to) => v.(title := to)
    case Assigned(handle) => v.(assignee := Some(handle))
    case Unassigned(_) => v.(assignee := None)
    case Labeled(name, _) => v.(labels := v.labels + {name})
    case Unlabeled(name, _) => v.(labels := v.labels - {name})
    case Milestoned(title, number) => v.(milestone := Some((title, number)))
    case Demilestoned(_) => v.(milestone := None)
  }

  function Replay(v: View, events: seq<Event>): View
    decreases |events|
  {
    if events == [] then v else Replay(Tell(v, events[0]), events[1..])
  }

  lemma {:induction false} ReplayAppend(v: View, a: seq<Event>, b: seq<Event>)
    ensures Replay(v, a + b) == Replay(Replay(v, a), b)
    decreases |a|
  {
    if a == [] {
      assert a + b == b;
    } else {
      assert (a + b)[1..] == a[1..] + b;
      ReplayAppend(Tell(v, a[0]), a[1..], b);
    }
  }

  lemma ReplayPush(v: View, events: seq<Event>, e: Event)
    ensures Replay(v, events + [e]) == Tell(Replay(v, events), e)
  {
    ReplayAppend(v, events, [e]);
  }

  /** Ids are unique, label names too, and handles are found both ways. */
  ghost predicate WorldSound(w: World) {
    && (forall j, k :: 0 <= j < k < |w.labels| ==> w.labels[j].id != w.labels[k].id && w.labels[j].name != w.labels[k].name)
    && (forall j, k :: 0 <= j < k < |w.milestones| ==> w.milestones[j].id != w.milestones[k].id)
    && (forall h :: h in w.users ==> w.users[h] in w.handles && w.handles[w.users[h]] == h)
  }

  /** `closedAt` is set exactly when the issue is closed, and times are not negative. */
  predicate RowSound(row: Row) { (row.closedAt <==> row.state == Closed) && row.estimate >= 0 && row.spent >= 0 }

  lemma LabelsDiffer(w: World, l: LabelDef, m: LabelDef)
    requires WorldSound(w) && l in w.labels && m in w.labels && (l.id == m.id || l.name == m.name)
    ensures l == m
  {
  }

  lemma NamesAdd(w: World, labels: set<nat>, l: LabelDef)
    requires WorldSound(w) && l in w.labels
    ensures LabelNames(w, labels + {l.id}) == LabelNames(w, labels) + {l.name}
  {
    forall n ensures n in LabelNames(w, labels + {l.id}) <==> n in LabelNames(w, labels) + {l.name} {
      if n in LabelNames(w, labels + {l.id}) {
        var m :| m in w.labels && m.id in labels + {l.id} && m.name == n;
        if m.id == l.id { LabelsDiffer(w, l, m); }
      }
    }
  }

  lemma NamesDrop(w: World, labels: set<nat>, l: LabelDef)
    requires WorldSound(w) && l in w.labels
    ensures LabelNames(w, labels - {l.id}) == LabelNames(w, labels) - {l.name}
  {
    forall n ensures n in LabelNames(w, labels - {l.id}) <==> n in LabelNames(w, labels) - {l.name} {
      if n in LabelNames(w, labels - {l.id}) {
        var m :| m in w.labels && m.id in labels - {l.id} && m.name == n;
        if m.name == l.name { LabelsDiffer(w, l, m); }
      }
      if n in LabelNames(w, labels) && n != l.name {
        var m :| m in w.labels && m.id in labels && m.name == n;
        assert m.id in labels - {l.id} by { if m.id == l.id { LabelsDiffer(w, l, m); } }
      }
    }
  }

  lemma {:induction false} AddTold(w: World, v: View, labels: set<nat>, ls: seq<LabelDef>)
    requires WorldSound(w) && (forall l :: l in ls ==> l in w.labels) && v.labels == LabelNames(w, labels)
    ensures Replay(v, AddEvents(labels, ls)) == v.(labels := LabelNames(w, labels + Ids(ls)))
    decreases |ls|
  {
    if ls == [] {
      assert labels + Ids(ls) == labels;
    } else {
      IdsCons(ls);
      if ls[0].id in labels {
        assert labels + Ids(ls) == labels + Ids(ls[1..]);
        AddTold(w, v, labels, ls[1..]);
      } else {
        var e := Labeled(ls[0].name, ls[0].color);
        NamesAdd(w, labels, ls[0]);
        assert labels + Ids(ls) == labels + {ls[0].id} + Ids(ls[1..]);
        AddTold(w, Tell(v, e), labels + {ls[0].id}, ls[1..]);
        assert ([e] + AddEvents(labels + {ls[0].id}, ls[1..]))[1..] == AddEvents(labels + {ls[0].id}, ls[1..]);
      }
    }
  }

  lemma {:induction false} DropTold(w: World, v: View, labels: set<nat>, ls: seq<LabelDef>)
    requires WorldSound(w) && (forall l :: l in ls ==> l in w.labels) && v.labels == LabelNames(w, labels)
    ensures Replay(v, DropEvents(labels, ls)) == v.(labels := LabelNames(w, labels - Ids(ls)))
    decreases |ls|
  {
    if ls == [] {
      assert labels - Ids(ls) == labels;
    } else {
      IdsCons(ls);
      if ls[0].id !in labels {
        assert labels - Ids(ls) == labels - Ids(ls[1..]);
        DropTold(w, v, labels, ls[1..]);
      } else {
        var e := Unlabeled(ls[0].name, ls[0].color);
        NamesDrop(w, labels, ls[0]);
        assert labels - Ids(ls) == labels - {ls[0].id} - Ids(ls[1..]);
        DropTold(w, Tell(v, e), labels - {ls[0].id}, ls[1..]);
        assert ([e] + DropEvents(labels - {ls[0].id}, ls[1..]))[1..] == DropEvents(labels - {ls[0].id}, ls[1..]);
      }
    }
  }

  lemma IdsCons(ls: seq<LabelDef>)
    requires ls != []
    ensures Ids(ls) == {ls[0].id} + Ids(ls[1..])
  {
    forall x ensures x in Ids(ls) <==> x in {ls[0].id} + Ids(ls[1..]) {
      if x in Ids(ls) {
        var l :| l in ls && l.id == x;
        assert l == ls[0] || l in ls[1..];
      }
      if x == ls[0].id { assert ls[0] in ls; }
    }
  }

  /** What adding the labels `names` comes to, from an issue, a timeline and the notes so far. */
  function AddGoal(w: World, i: Issue, events: seq<Event>, notes: seq<Note>, names: seq<string>): Outcome {
    Outcome(i.(labels := i.labels + Ids(Found(w, names))), events + AddEvents(i.labels, Found(w, names)), notes + Rejections(w, names))
  }

  /** What dropping the labels `ls` comes to, from an issue and a timeline. */
  function DropGoal(i: Issue, events: seq<Event>, ls: seq<LabelDef>): (Issue, seq<Event>) {
    (i.(labels := i.labels - Ids(ls)), events + DropEvents(i.labels, ls))
  }

  lemma DropGoalNext(i: Issue, events: seq<Event>, l: LabelDef, rest: seq<LabelDef>)
    ensures DropGoal(i, events, [l] + rest) ==
              DropGoal(i.(labels := i.labels - {l.id}), events + if l.id in i.labels then [Unlabeled(l.name, l.color)] else [], rest)
  {
    assert ([l] + rest)[1..] == rest;
    IdsCons([l] + rest);
    assert i.labels - ({l.id} + Ids(rest)) == i.labels - {l.id} - Ids(rest);
    if l.id in i.labels {
      Assoc(events, [Unlabeled(l.name, l.color)], DropEvents(i.labels - {l.id}, rest));
    } else {
      assert i.labels - {l.id} == i.labels && events + [] == events;
    }
  }

  lemma DropGoalDone(w: World, who: Actor, i: Issue, events: seq<Event>, names: seq<string>, now: Outcome)
    requires who.writer
    ensures DropGoal(now.issue, now.events, []) == DropGoal(i, events, if names == [] then w.labels else Found(w, names)) ==>
              var o := UnlabelEffect(w, who, i, names);
              now.issue == o.issue && now.events == events + o.events
              && o.notes == if now.issue.labels == i.labels then [] else [Applied]
  {
    assert now.issue.labels - Ids([]) == now.issue.labels;
    assert now.events + [] == now.events;
    var found := if names == [] then w.labels else Found(w, names);
    if Ids(found) !! i.labels {
      assert i.labels - Ids(found) == i.labels;
    } else {
      var x :| x in Ids(found) && x in i.labels;
      assert x !in i.labels - Ids(found);
    }
  }

  /** Once no name is left, the goal is reached, but for the closing note. */
  lemma AddGoalDone(w: World, who: Actor, i: Issue, events: seq<Event>, notes: seq<Note>, names: seq<string>, now: Outcome)
    requires who.writer && names != []
    ensures AddGoal(w, now.issue, now.events, now.notes, []) == AddGoal(w, i, events, notes, names) ==>
              var o := LabelEffect(w, who, i, names);
              now.issue == o.issue && now.events == events + o.events
              && notes + o.notes == now.notes + if now.issue.labels == i.labels then [] else [Applied]
  {
    assert now.issue.labels + Ids(Found(w, [])) == now.issue.labels;
    assert now.events + [] == now.events && now.notes + [] == now.notes;
    var found := Found(w, names);
    assert Ids(found) <= i.labels <==> i.labels + Ids(found) == i.labels;
    Assoc(notes, Rejections(w, names), if Ids(found) <= i.labels then [] else [Applied]);
  }

  lemma AddGoalUnknown(w: World, i: Issue, events: seq<Event>, notes: seq<Note>, name: string, rest: seq<string>)
    requires FindLabel(w, w.labels, name).None?
    ensures AddGoal(w, i, events, notes, [name] + rest) == AddGoal(w, i, events, notes + [Rejected], rest)
  {
    assert ([name] + rest)[1..] == rest;
    Assoc(notes, [Rejected], Rejections(w, rest));
  }

  lemma AddGoalKnown(w: World, i: Issue, events: seq<Event>, notes: seq<Note>, name: string, l: LabelDef, rest: seq<string>)
    requires FindLabel(w, w.labels, name) == Some(l)
    ensures AddGoal(w, i, events, notes, [name] + rest) ==
              AddGoal(w, i.(labels := i.labels + {l.id}), events + if l.id in i.labels then [] else [Labeled(l.name, l.color)], notes, rest)
  {
    assert ([name] + rest)[1..] == rest;
    var found := Found(w, rest);
    assert Found(w, [name] + rest) == [l] + found && ([l] + found)[1..] == found;
    IdsCons([l] + found);
    assert i.labels + ({l.id} + Ids(found)) == i.labels + {l.id} + Ids(found);
    assert [] + Rejections(w, rest) == Rejections(w, rest);
    if l.id in i.labels {
      assert i.labels + {l.id} == i.labels && events + [] == events;
    } else {
      Assoc(events, [Labeled(l.name, l.color)], AddEvents(i.labels + {l.id}, found));
    }
  }

  lemma {:induction false} FoundExist(w: World, names: seq<string>)
    ensures forall l :: l in Found(w, names) ==> l in w.labels
  {
    if names != [] { FoundExist(w, names[1..]); }
  }

  lemma MilestoneFound(w: World, m: MilestoneDef)
    requires WorldSound(w) && m in w.milestones
    ensures MilestoneView(w, Some(m.id)) == Some((m.title, m.number))
  {
  }

  lemma OneTold(v: View, e: Event)
    ensures Replay(v, [e]) == Tell(v, e)
  {
    assert [e][1..] == [];
  }

  /** The row stays sound, and the one event, if any, tells the change. */
  ghost predicate ToldOnce(w: World, i: Issue, o: Outcome) {
    && RowSound(o.issue.row) && o.issue.labels == i.labels
    && if o.events == [] then ViewOf(w, o.issue) == ViewOf(w, i)
       else |o.events| == 1 && Tell(ViewOf(w, i), o.events[0]) == ViewOf(w, o.issue)
  }

  lemma WorkIsTold(w: World, who: Actor, i: Issue, cmd: Command)
    requires WorldSound(w) && RowSound(i.row)
    requires cmd.Estimate? || cmd.Spend? || cmd.RemoveEstimate? || cmd.RemoveTimeSpent? || cmd.Milestone? || cmd.RemoveMilestone?
    ensures ToldOnce(w, i, Effect(w, who, i, cmd))
  {
    if cmd.Milestone? {
      var found := FindTitle(w, w.milestones, MilestoneTitle(cmd.arg));
      if found.Some? { MilestoneFound(w, found.value); }
    }
  }

  lemma RowIsTold(w: World, who: Actor, i: Issue, cmd: Command)
    requires WorldSound(w) && RowSound(i.row)
    requires cmd.Close? || cmd.Reopen? || cmd.Title? || cmd.Assign? || cmd.Unassign? || cmd.Unknown?
    ensures ToldOnce(w, i, Effect(w, who, i, cmd))
  {
  }

  /** One command, when nothing fails: the row stays sound, and its events tell the whole change. */
  lemma EffectIsTold(w: World, who: Actor, i: Issue, cmd: Command)
    requires WorldSound(w) && RowSound(i.row)
    ensures RowSound(Effect(w, who, i, cmd).issue.row)
    ensures Replay(ViewOf(w, i), Effect(w, who, i, cmd).events) == ViewOf(w, Effect(w, who, i, cmd).issue)
  {
    if cmd.Label? {
      FoundExist(w, cmd.names);
      AddTold(w, ViewOf(w, i), i.labels, Found(w, cmd.names));
    } else if cmd.Unlabel? {
      FoundExist(w, cmd.names);
      DropTold(w, ViewOf(w, i), i.labels, if cmd.names == [] then w.labels else Found(w, cmd.names));
    } else {
      if cmd.Close? || cmd.Reopen? || cmd.Title? || cmd.Assign? || cmd.Unassign? || cmd.Unknown? {
        RowIsTold(w, who, i, cmd);
      } else {
        WorkIsTold(w, who, i, cmd);
      }
      var events := Effect(w, who, i, cmd).events;
      if events != [] {
        assert events == [events[0]];
        OneTold(ViewOf(w, i), events[0]);
      }
    }
  }

  /** Whole command lists: replaying the events over the initial issue gives the final one. */
  lemma {:induction false} EffectsAreTold(w: World, who: Actor, i: Issue, cmds: seq<Command>)
    requires WorldSound(w) && RowSound(i.row)
    ensures RowSound(Effects(w, who, i, cmds).issue.row)
    ensures Replay(ViewOf(w, i), Effects(w, who, i, cmds).events) == ViewOf(w, Effects(w, who, i, cmds).issue)
    decreases |cmds|
  {
    if cmds != [] {
      var first := Effect(w, who, i, cmds[0]);
      EffectIsTold(w, who, i, cmds[0]);
      EffectsAreTold(w, who, first.issue, cmds[1..]);
      ReplayAppend(ViewOf(w, i), first.events, Effects(w, who, first.issue, cmds[1..]).events);
    }
  }

  /** Only state, title and assignee may differ; for an outsider nothing may, and every command is rejected. */
  ghost predicate Bound(who: Actor, i: Issue, o: Outcome) {
    var j := o.issue;
    && j.labels == i.labels && j.row.estimate == i.row.estimate && j.row.spent == i.row.spent && j.row.milestone == i.row.milestone
    && (!who.author ==> j == i && o.events == [] && forall k :: 0 <= k < |o.notes| ==> o.notes[k] == Rejected)
  }

  lemma RightBinds(w: World, who: Actor, i: Issue, cmd: Command)
    requires !who.writer
    ensures Bound(who, i, Effect(w, who, i, cmd))
  {
  }

  /** Who may do what: an outsider changes nothing, and an author who is no writer only state, title and assignee. */
  lemma {:induction false} RightsBind(w: World, who: Actor, i: Issue, cmds: seq<Command>)
    requires !who.writer
    ensures Bound(who, i, Effects(w, who, i, cmds))
    decreases |cmds|
  {
    if cmds != [] {
      RightBinds(w, who, i, cmds[0]);
      RightsBind(w, who, Effect(w, who, i, cmds[0]).issue, cmds[1..]);
    }
  }

  // ------------------------------------------------- what each command does, told alone

  /** The first label whose name is the text, whatever the case. */
  predicate LabelCalled(w: World, k: nat, text: string) {
    && k < |w.labels| && w.fold(w.labels[k].name) == w.fold(text)
    && forall j :: 0 <= j < k ==> w.fold(w.labels[j].name) != w.fold(text)
  }

  predicate LabelExists(w: World, text: string) { exists k :: 0 <= k < |w.labels| && w.fold(w.labels[k].name) == w.fold(text) }

  /** One of the names is that of the label with this id. */
  predicate NamedLabel(w: World, names: seq<string>, id: nat) {
    exists n, k: nat :: 0 <= n < |names| && k < |w.labels| && LabelCalled(w, k, names[n]) && w.labels[k].id == id
  }

  /** How many of the names are those of no label. */
  function Misses(w: World, names: seq<string>): nat {
    if names == [] then 0 else (if LabelExists(w, names[0]) then 0 else 1) + Misses(w, names[1..])
  }

  /** The first milestone with this title, whatever the case. */
  predicate MilestoneCalled(w: World, k: nat, title: string) {
    && k < |w.milestones| && w.fold(w.milestones[k].title) == w.fold(title)
    && forall j :: 0 <= j < k ==> w.fold(w.milestones[j].title) != w.fold(title)
  }

  predicate MilestoneExists(w: World, title: string) {
    exists k :: 0 <= k < |w.milestones| && w.fold(w.milestones[k].title) == w.fold(title)
  }

  /** A token without the `@` it may start with, in lower case. */
  function Handle(w: World, token: string): string { w.fold(if token != [] && token[0] == '@' then token[1..] else token) }

  predicate Rejects(i: Issue, j: Issue, notes: seq<Note>) { j == i && notes == [Rejected] }

  /** The row becomes `row`, the labels stay, and the command is accepted. */
  predicate Sets(i: Issue, row: Row, j: Issue, notes: seq<Note>) { j == i.(row := row) && notes == [Applied] }

  predicate AssignDoes(w: World, who: Actor, i: Issue, token: string, j: Issue, notes: seq<Note>) {
    if !who.CanModify() || token == [] then Rejects(i, j, notes)
    else if w.fold(token) == "me" then Sets(i, i.row.(assignee := Some(who.id)), j, notes)
    else if Handle(w, token) in w.users then Sets(i, i.row.(assignee := Some(w.users[Handle(w, token)])), j, notes)
    else Rejects(i, j, notes)
  }

  /** The labels afterwards are those before and those named; every name of no label is rejected. */
  ghost predicate LabelDoes(w: World, who: Actor, i: Issue, names: seq<string>, j: Issue, notes: seq<Note>) {
    if !who.writer || names == [] then Rejects(i, j, notes)
    else
      && j.row == i.row && (forall id :: id in j.labels <==> id in i.labels || NamedLabel(w, names, id))
      && notes == seq(Misses(w, names), _ => Rejected) + if j.labels == i.labels then [] else [Applied]
  }

  /** The labels afterwards are those before but those named, or but all of the repository where none is named. */
  ghost predicate UnlabelDoes(w: World, who: Actor, i: Issue, names: seq<string>, j: Issue, notes: seq<Note>) {
    if !who.writer then Rejects(i, j, notes)
    else
      && j.row == i.row && notes == (if j.labels == i.labels then [] else [Applied])
      && forall id :: id in j.labels <==> id in i.labels && !(if names == [] then exists l :: l in w.labels && l.id == id else NamedLabel(w, names, id))
  }

  ghost predicate MilestoneDoes(w: World, who: Actor, i: Issue, title: string, j: Issue, notes: seq<Note>) {
    if !who.writer || title == [] || !MilestoneExists(w, title) then Rejects(i, j, notes)
    else exists k: nat :: MilestoneCalled(w, k, title) && Sets(i, i.row.(milestone := Some(w.milestones[k].id)), j, notes)
  }

  /**
   * What a command makes of an issue, and whether it is rejected: those who may not, and arguments that name nothing,
   * are; everything else is accepted, and changes the one thing it is about.
   */
  ghost predicate Does(w: World, who: Actor, i: Issue, cmd: Command, j: Issue, notes: seq<Note>) {
    match cmd
    case Close => if who.CanModify() then Sets(i, i.row.(state := Closed, closedAt := true), j, notes) else Rejects(i, j, notes)
    case Reopen => if who.CanModify() then Sets(i, i.row.(state := Open, closedAt := false), j, notes) else Rejects(i, j, notes)
    case Title(arg) => if who.CanModify() && Trim(arg) != [] then Sets(i, i.row.(title := Trim(arg)), j, notes) else Rejects(i, j, notes)
    case Assign(arg) => AssignDoes(w, who, i, FirstWord(arg), j, notes)
    case Unassign => if who.CanModify() then Sets(i, i.row.(assignee := None), j, notes) else Rejects(i, j, notes)
    case Label(names) => LabelDoes(w, who, i, names, j, notes)
    case Unlabel(names) => UnlabelDoes(w, who, i, names, j, notes)
    case Estimate(arg) =>
      (match Duration.Parsed(arg)
       case Some(m) => if who.writer && m >= 0 then Sets(i, i.row.(estimate := m), j, notes) else Rejects(i, j, notes)
       case None => Rejects(i, j, notes))
    case Spend(arg) =>
      (match Duration.Parsed(arg)
       case Some(m) =>
         if !who.writer then Rejects(i, j, notes)
         else (j.row.spent == i.row.spent + m || (i.row.spent + m < 0 && j.row.spent == 0)) && j.row.spent >= 0
              && Sets(i, i.row.(spent := j.row.spent), j, notes)
       case None => Rejects(i, j, notes))
    case RemoveEstimate => if who.writer then Sets(i, i.row.(estimate := 0), j, notes) else Rejects(i, j, notes)
    case RemoveTimeSpent => if who.writer then Sets(i, i.row.(spent := 0), j, notes) else Rejects(i, j, notes)
    case Milestone(arg) => MilestoneDoes(w, who, i, MilestoneTitle(arg), j, notes)
    case RemoveMilestone => if who.writer then Sets(i, i.row.(milestone := None), j, notes) else Rejects(i, j, notes)
    case Unknown => Rejects(i, j, notes)
  }

  /** The commands lead from one issue to the other, each starting from what the ones before it left. */
  ghost predicate DoesAll(w: World, who: Actor, i: Issue, cmds: seq<Command>, j: Issue, notes: seq<Note>)
    decreases |cmds|
  {
    if cmds == [] then j == i && notes == []
    else exists next, first, rest ::
           Does(w, who, i, cmds[0], next, first) && DoesAll(w, who, next, cmds[1..], j, rest) && notes == first + rest
  }

  lemma {:induction false} FindLabelCalled(w: World, labels: seq<LabelDef>, name: string)
    ensures FindLabel(w, labels, name).None? <==> forall k :: 0 <= k < |labels| ==> w.fold(labels[k].name) != w.fold(name)
    ensures var r := FindLabel(w, labels, name);
      r.Some? ==> exists k :: 0 <= k < |labels| && labels[k] == r.value && w.fold(labels[k].name) == w.fold(name)
                              && forall j :: 0 <= j < k ==> w.fold(labels[j].name) != w.fold(name)
  {
    if labels != [] && w.fold(labels[0].name) != w.fold(name) {
      FindLabelCalled(w, labels[1..], name);
      if FindLabel(w, labels, name).Some? {
        var k :| 0 <= k < |labels[1..]| && labels[1..][k] == FindLabel(w, labels, name).value && w.fold(labels[1..][k].name) == w.fold(name)
                 && forall j :: 0 <= j < k ==> w.fold(labels[1..][j].name) != w.fold(name);
        assert labels[k + 1] == labels[1..][k];
        forall j | 0 <= j < k + 1 ensures w.fold(labels[j].name) != w.fold(name) { if j > 0 { assert labels[j] == labels[1..][j - 1]; } }
      } else {
        forall k | 0 <= k < |labels| ensures w.fold(labels[k].name) != w.fold(name) { if k > 0 { assert labels[k] == labels[1..][k - 1]; } }
      }
    }
  }

  lemma {:induction false} FindTitleCalled(w: World, ms: seq<MilestoneDef>, title: string)
    ensures FindTitle(w, ms, title).None? <==> forall k :: 0 <= k < |ms| ==> w.fold(ms[k].title) != w.fold(title)
    ensures var r := FindTitle(w, ms, title);
      r.Some? ==> exists k :: 0 <= k < |ms| && ms[k] == r.value && w.fold(ms[k].title) == w.fold(title)
                              && forall j :: 0 <= j < k ==> w.fold(ms[j].title) != w.fold(title)
  {
    if ms != [] && w.fold(ms[0].title) != w.fold(title) {
      FindTitleCalled(w, ms[1..], title);
      if FindTitle(w, ms, title).Some? {
        var k :| 0 <= k < |ms[1..]| && ms[1..][k] == FindTitle(w, ms, title).value && w.fold(ms[1..][k].title) == w.fold(title)
                 && forall j :: 0 <= j < k ==> w.fold(ms[1..][j].title) != w.fold(title);
        assert ms[k + 1] == ms[1..][k];
        forall j | 0 <= j < k + 1 ensures w.fold(ms[j].title) != w.fold(title) { if j > 0 { assert ms[j] == ms[1..][j - 1]; } }
      } else {
        forall k | 0 <= k < |ms| ensures w.fold(ms[k].title) != w.fold(title) { if k > 0 { assert ms[k] == ms[1..][k - 1]; } }
      }
    }
  }

  /** The label that a name finds is the one it calls. */
  lemma FoundIsCalled(w: World, name: string)
    ensures FindLabel(w, w.labels, name).None? <==> !LabelExists(w, name)
    ensures FindLabel(w, w.labels, name).Some? ==> exists k: nat :: LabelCalled(w, k, name) && w.labels[k] == FindLabel(w, w.labels, name).value
    ensures forall k: nat :: LabelCalled(w, k, name) ==> FindLabel(w, w.labels, name) == Some(w.labels[k])
  {
    FindLabelCalled(w, w.labels, name);
    if FindLabel(w, w.labels, name).Some? {
      var k :| 0 <= k < |w.labels| && w.labels[k] == FindLabel(w, w.labels, name).value && w.fold(w.labels[k].name) == w.fold(name)
               && forall j :: 0 <= j < k ==> w.fold(w.labels[j].name) != w.fold(name);
      assert LabelCalled(w, k, name);
      forall m: nat | LabelCalled(w, m, name) ensures m == k { }
    }
  }

  lemma {:induction false} FoundAreNamed(w: World, names: seq<string>, id: nat)
    ensures id in Ids(Found(w, names)) <==> NamedLabel(w, names, id)
  {
    if names != [] {
      FoundIsCalled(w, names[0]);
      FoundAreNamed(w, names[1..], id);
      NamedCons(w, names, id);
      if FindLabel(w, w.labels, names[0]).Some? {
        IdsCons(Found(w, names));
        assert Found(w, names)[1..] == Found(w, names[1..]);
      }
    }
  }

  lemma NamedCons(w: World, names: seq<string>, id: nat)
    requires names != []
    ensures NamedLabel(w, names, id) <==>
              (exists k: nat :: k < |w.labels| && LabelCalled(w, k, names[0]) && w.labels[k].id == id) || NamedLabel(w, names[1..], id)
  {
    if NamedLabel(w, names, id) {
      var n, k: nat :| 0 <= n < |names| && k < |w.labels| && LabelCalled(w, k, names[n]) && w.labels[k].id == id;
      if n > 0 { assert names[n] == names[1..][n - 1]; }
    }
    if NamedLabel(w, names[1..], id) {
      var n, k: nat :| 0 <= n < |names[1..]| && k < |w.labels| && LabelCalled(w, k, names[1..][n]) && w.labels[k].id == id;
      assert names[1..][n] == names[n + 1];
    }
  }

  lemma {:induction false} RejectionsAreMisses(w: World, names: seq<string>)
    ensures Rejections(w, names) == seq(Misses(w, names), _ => Rejected)
  {
    if names != [] {
      FoundIsCalled(w, names[0]);
      RejectionsAreMisses(w, names[1..]);
    }
  }

  lemma LabelEffectDoes(w: World, who: Actor, i: Issue, names: seq<string>)
    ensures var o := LabelEffect(w, who, i, names); LabelDoes(w, who, i, names, o.issue, o.notes)
  {
    forall id ensures id in Ids(Found(w, names)) <==> NamedLabel(w, names, id) { FoundAreNamed(w, names, id); }
    RejectionsAreMisses(w, names);
    var found := Found(w, names);
    assert Ids(found) <= i.labels <==> i.labels + Ids(found) == i.labels;
  }

  lemma UnlabelEffectDoes(w: World, who: Actor, i: Issue, names: seq<string>)
    ensures var o := UnlabelEffect(w, who, i, names); UnlabelDoes(w, who, i, names, o.issue, o.notes)
  {
    forall id ensures id in Ids(Found(w, names)) <==> NamedLabel(w, names, id) { FoundAreNamed(w, names, id); }
    var found := if names == [] then w.labels else Found(w, names);
    if Ids(found) !! i.labels {
      assert i.labels - Ids(found) == i.labels;
    } else {
      var x :| x in Ids(found) && x in i.labels;
      assert x !in i.labels - Ids(found);
    }
  }

  lemma MilestoneEffectDoes(w: World, who: Actor, i: Issue, title: string)
    ensures var o := MilestoneEffect(w, who, i, title); MilestoneDoes(w, who, i, title, o.issue, o.notes)
  {
    FindTitleCalled(w, w.milestones, title);
    if who.writer && title != [] && MilestoneExists(w, title) {
      var k :| 0 <= k < |w.milestones| && w.milestones[k] == FindTitle(w, w.milestones, title).value && w.fold(w.milestones[k].title) == w.fold(title)
               && forall j :: 0 <= j < k ==> w.fold(w.milestones[j].title) != w.fold(title);
      assert MilestoneCalled(w, k, title);
    }
  }

  lemma EffectDoes(w: World, who: Actor, i: Issue, cmd: Command)
    requires RowSound(i.row)
    ensures var o := Effect(w, who, i, cmd); Does(w, who, i, cmd, o.issue, o.notes)
  {
    match cmd
    case Label(names) => LabelEffectDoes(w, who, i, names);
    case Unlabel(names) => UnlabelEffectDoes(w, who, i, names);
    case Milestone(arg) => MilestoneEffectDoes(w, who, i, MilestoneTitle(arg));
    case _ =>
  }

  /** The commands of a list do what they say, one after the other. */
  lemma {:induction false} EffectsDo(w: World, who: Actor, i: Issue, cmds: seq<Command>)
    requires WorldSound(w) && RowSound(i.row)
    ensures var o := Effects(w, who, i, cmds); DoesAll(w, who, i, cmds, o.issue, o.notes)
    decreases |cmds|
  {
    if cmds != [] {
      hide Does, Effect;
      var first := Effect(w, who, i, cmds[0]);
      EffectIsTold(w, who, i, cmds[0]);
      EffectDoes(w, who, i, cmds[0]);
      EffectsDo(w, who, first.issue, cmds[1..]);
      assert DoesAll(w, who, first.issue, cmds[1..], Effects(w, who, first.issue, cmds[1..]).issue, Effects(w, who, first.issue, cmds[1..]).notes);
    }
  }

  /** The first word of an argument: what stands between its leading spaces and the next one. */
  lemma FirstWordIsFirst(s: string) returns (i: nat, j: nat)
    ensures i <= j <= |s| && FirstWord(s) == s[i..j] && Spaces(s[..i]) && (forall k :: i <= k < j ==> !IsSpace(s[k]))
    ensures (j < |s| ==> IsSpace(s[j])) && (FirstWord(s) == [] ==> Spaces(s))
  {
    i := TrimStartCuts(s);
    var t := s[i..];
    WordEnds(t);
    j := i + WordLength(t);
    assert s[i..j] == t[..WordLength(t)];
    assert forall k :: i <= k < |s| ==> s[k] == t[k - i];
    if i == j { assert i == |s| && s[..i] == s; }
  }

  lemma {:induction false} WordEnds(s: string)
    ensures forall k :: 0 <= k < WordLength(s) ==> !IsSpace(s[k])
    ensures WordLength(s) < |s| ==> IsSpace(s[WordLength(s)])
  {
    if s != [] && !IsSpace(s[0]) { WordEnds(s[1..]); }
  }

  /** A title comes through plain, after a `%`, in quotes, or both. */
  lemma TitleComesThrough(t: string, quote: char)
    requires t != [] && Trimmed(t) && (quote == '"' || quote == '\'')
    ensures t[0] != '%' && t[0] != '"' && t[0] != '\'' ==> MilestoneTitle(t) == t && MilestoneTitle("%" + t) == t
    ensures MilestoneTitle([quote] + t + [quote]) == t && MilestoneTitle("%" + ([quote] + t + [quote])) == t
  {
    var quoted := [quote] + t + [quote];
    TrimmedStays(t);
    TrimmedStays(quoted);
    TrimmedStays("%" + t);
    TrimmedStays("%" + quoted);
    assert ("%" + t)[1..] == t && ("%" + quoted)[1..] == quoted && quoted[1..|quoted| - 1] == t;
    hide TrimStart, TrimEnd, Trim;
  }

  // ------------------------------------------------------------------ the interpreter

  /** `applyIssueCommands`: the stored issue and timeline, and the working copy of its locals. */
  class IssueCommands {
    const w: World
    const who: Actor

    var row: Row
    var labels: set<nat>
    var events: seq<Event>

    var state: State
    var assignee: Option<nat>
    var title: string
    var estimate: int
    var spent: int
    var milestone: Option<nat>
    var appliedLabels: Option<set<nat>>
    var notes: seq<Note>

    /** Some query or write has failed; some event was lost. */
    ghost var failed: bool
    ghost var lost: bool
    ghost const start: View

    constructor (w: World, who: Actor, issue: Issue)
      ensures this.w == w && this.who == who && row == issue.row && labels == issue.labels && events == [] && notes == []
      ensures CopyAgrees() && !failed && !lost && start == ViewOf(w, issue)
    {
      this.w, this.who, row, labels, events, notes := w, who, issue.row, issue.labels, [], [];
      state, assignee, title := issue.row.state, issue.row.assignee, issue.row.title;
      estimate, spent, milestone, appliedLabels := issue.row.estimate, issue.row.spent, issue.row.milestone, None;
      failed, lost, start := false, false, ViewOf(w, issue);
    }

    function Stored(): Issue
      reads this
    {
      Issue(row, labels)
    }

    /** The working copy is the stored row, and the labels once loaded are the stored ones. */
    predicate CopyAgrees()
      reads this
    {
      && state == row.state && assignee == row.assignee && title == row.title
      && estimate == row.estimate && spent == row.spent && milestone == row.milestone
      && (appliedLabels.Some? ==> appliedLabels.value == labels)
    }

    /** The timeline so far tells how the issue came to be what it is. */
    ghost predicate Told()
      reads this
    {
      Replay(start, events) == ViewOf(w, Stored())
    }

    ghost predicate Valid()
      reads this
    {
      WorldSound(w) && CopyAgrees() && RowSound(row) && (lost ==> failed) && (!lost ==> Told())
    }

    /** What a command that nothing disturbed has come to. */
    ghost predicate Came(o: Outcome, events0: seq<Event>, notes0: seq<Note>)
      reads this
    {
      Stored() == o.issue && events == events0 + o.events && notes == notes0 + o.notes
    }

    method Query() returns (ok: bool)
      modifies this`failed
      ensures if ok then failed == old(failed) else failed
    {
      ok := *;
      if !ok { failed := true; }
    }

    method Update(next: Row) returns (ok: bool)
      modifies this`row, this`failed
      ensures if ok then row == next && failed == old(failed) else row == old(row) && failed
    {
      ok := *;
      if ok { row := next; } else { failed := true; }
    }

    method Emit(e: Event) returns (ok: bool)
      modifies this`events, this`failed, this`lost
      ensures if ok then events == old(events) + [e] && failed == old(failed) && lost == old(lost) else events == old(events) && failed && lost
    {
      ok := *;
      if ok { events := events + [e]; } else { failed, lost := true, true; }
    }

    method Apply()
      modifies this`notes
      ensures notes == old(notes) + [Applied]
    {
      notes := notes + [Applied];
    }

    method Reject()
      modifies this`notes
      ensures notes == old(notes) + [Rejected]
    {
      notes := notes + [Rejected];
    }

    /** Tells the event of a change that has been stored. */
    method Announce(e: Event, ghost before: Issue) returns (ok: bool)
      requires WorldSound(w) && CopyAgrees() && RowSound(row) && (lost ==> failed)
      requires !lost ==> Replay(start, events) == ViewOf(w, before)
      requires Tell(ViewOf(w, before), e) == ViewOf(w, Stored())
      modifies this`events, this`failed, this`lost
      ensures Valid()
      ensures if ok then events == old(events) + [e] && failed == old(failed) && lost == old(lost) else events == old(events) && failed && lost
    {
      ReplayPush(start, events, e);
      ok := Emit(e);
    }

    method SetState(target: State) returns (ok: bool)
      requires Valid()
      modifies this
      ensures Valid() && (!ok ==> failed) && (old(failed) ==> failed) && unchanged(`labels)
      ensures !failed ==> Came(Effect(w, who, old(Stored()), if target == Closed then Close else Reopen), old(events), old(notes))
    {
      ghost var before := Stored();
      if !who.CanModify() { Reject(); return true; }
      if state == target { Apply(); return true; }
      ok := Update(if target == Closed then row.(state := Closed, closedAt := true) else row.(state := Open, closedAt := false));
      if !ok { return; }
      state := target;
      ok := Announce(if target == Closed then ClosedEvent else ReopenedEvent, before);
      if !ok { return; }
      Apply();
    }

    method SetTitle(arg: string) returns (ok: bool)
      requires Valid()
      modifies this
      ensures Valid() && (!ok ==> failed) && (old(failed) ==> failed)
      ensures !failed ==> Came(Effect(w, who, old(Stored()), Title(arg)), old(events), old(notes))
    {
      ghost var before := Stored();
      if !who.CanModify() { Reject(); return true; }
      var next := Trim(arg);
      if next == [] { Reject(); return true; }
      if next == title { Apply(); return true; }
      var from := title;
      ok := Update(row.(title := next));
      if !ok { return; }
      title := next;
      ok := Announce(TitleChanged(from, next), before);
      if !ok { return; }
      Apply();
    }

    method SetAssignee(token: string) returns (ok: bool)
      requires Valid()
      modifies this
      ensures Valid() && (!ok ==> failed) && (old(failed) ==> failed)
      ensures !failed ==> Came(AssignEffect(w, who, old(Stored()), token), old(events), old(notes))
    {
      ghost var before := Stored();
      if !who.CanModify() { Reject(); return true; }
      if token == [] { Reject(); return true; }
      ok := Query();
      if !ok { return; }
      var target := TargetUser(w, who.id, token);
      if target.None? { Reject(); return true; }
      var (id, handle) := target.value;
      if assignee == Some(id) { Apply(); return true; }
      ok := Update(row.(assignee := Some(id)));
      if !ok { return; }
      assignee := Some(id);
      ok := Announce(Assigned(handle), before);
      if !ok { return; }
      Apply();
    }

    method ClearAssignee() returns (ok: bool)
      requires Valid()
      modifies this
      ensures Valid() && (!ok ==> failed) && (old(failed) ==> failed)
      ensures !failed ==> Came(Effect(w, who, old(Stored()), Unassign), old(events), old(notes))
    {
      ghost var before := Stored();
      if !who.CanModify() { Reject(); return true; }
      if assignee == None { Apply(); return true; }
      ok := Query();
      if !ok { return; }
      var prev := HandleOf(w, assignee.value);
      ok := Update(row.(assignee := None));
      if !ok { return; }
      assignee := None;
      ok := Announce(Unassigned(prev), before);
      if !ok { return; }
      Apply();
    }

    method SetEstimate(minutes: Option<int>) returns (ok: bool)
      requires Valid()
      modifies this
      ensures Valid() && (!ok ==> failed) && (old(failed) ==> failed)
      ensures !failed ==> Came(EstimateEffect(who, old(Stored()), minutes), old(events), old(notes))
    {
      if !who.writer { Reject(); return true; }
      if minutes == None || minutes.value < 0 { Reject(); return true; }
      ok := Update(row.(estimate := minutes.value));
      if !ok { return; }
      estimate := minutes.value;
      Apply();
    }

    method AddSpent(delta: Option<int>) returns (ok: bool)
      requires Valid()
      modifies this
      ensures Valid() && (!ok ==> failed) && (old(failed) ==> failed)
      ensures !failed ==> Came(SpendEffect(who, old(Stored()), delta), old(events), old(notes))
    {
      if !who.writer { Reject(); return true; }
      if delta == None { Reject(); return true; }
      var next := if spent + delta.value > 0 then spent + delta.value else 0;
      ok := Update(row.(spent := next));
      if !ok { return; }
      spent := next;
      Apply();
    }

    method ClearEstimate() returns (ok: bool)
      requires Valid()
      modifies this
      ensures Valid() && (!ok ==> failed) && (old(failed) ==> failed)
      ensures !failed ==> Came(Effect(w, who, old(Stored()), RemoveEstimate), old(events), old(notes))
    {
      if !who.writer { Reject(); return true; }
      if estimate == 0 { Apply(); return true; }
      ok := Update(row.(estimate := 0));
      if !ok { return; }
      estimate := 0;
      Apply();
    }

    method ClearSpent() returns (ok: bool)
      requires Valid()
      modifies this
      ensures Valid() && (!ok ==> failed) && (old(failed) ==> failed)
      ensures !failed ==> Came(Effect(w, who, old(Stored()), RemoveTimeSpent), old(events), old(notes))
    {
      if !who.writer { Reject(); return true; }
      if spent == 0 { Apply(); return true; }
      ok := Update(row.(spent := 0));
      if !ok { return; }
      spent := 0;
      Apply();
    }

    method SetMilestone(wanted: string) returns (ok: bool)
      requires Valid()
      modifies this
      ensures Valid() && (!ok ==> failed) && (old(failed) ==> failed)
      ensures !failed ==> Came(MilestoneEffect(w, who, old(Stored()), wanted), old(events), old(notes))
    {
      if !who.writer { Reject(); return true; }
      if wanted == [] { Reject(); return true; }
      ok := Query();
      if !ok { return; }
      var found := FindTitle(w, w.milestones, wanted);
      if found.None? { Reject(); return true; }
      var m := found.value;
      if milestone == Some(m.id) { Apply(); return true; }
      MilestoneFound(w, m);
      ok := StoreMilestone(Some(m.id), Milestoned(m.title, m.number));
    }

    /** Stores another milestone and tells the event of it. */
    method StoreMilestone(next: Option<nat>, e: Event) returns (ok: bool)
      requires Valid() && Tell(ViewOf(w, Stored()), e) == ViewOf(w, Issue(row.(milestone := next), labels))
      modifies this
      ensures Valid() && (!ok ==> failed) && (old(failed) ==> failed)
      ensures var issue := old(Stored());
        !failed ==> Came(Changed(issue, issue.row.(milestone := next), [e]), old(events), old(notes))
    {
      ghost var before := Stored();
      ok := Update(row.(milestone := next));
      if !ok { return; }
      milestone := next;
      ok := Announce(e, before);
      if !ok { return; }
      Apply();
    }

    method ClearMilestone() returns (ok: bool)
      requires Valid()
      modifies this
      ensures Valid() && (!ok ==> failed) && (old(failed) ==> failed)
      ensures !failed ==> Came(Effect(w, who, old(Stored()), RemoveMilestone), old(events), old(notes))
    {
      if !who.writer { Reject(); return true; }
      if milestone == None { Apply(); return true; }
      ok := Query();
      if !ok { return; }
      ok := StoreMilestone(None, Demilestoned(MilestoneView(w, milestone)));
    }

    /** `loadAppliedLabels`. */
    method LoadLabels() returns (ok: bool)
      requires Valid()
      modifies this`appliedLabels, this`failed
      ensures Valid() && (ok ==> appliedLabels == Some(labels) && failed == old(failed)) && (!ok ==> failed)
    {
      if appliedLabels.Some? { return true; }
      ok := Query();
      if ok { appliedLabels := Some(labels); }
    }

    method InsertLabel(id: nat) returns (ok: bool)
      modifies this`labels, this`failed
      ensures if ok then labels == old(labels) + {id} && failed == old(failed) else labels == old(labels) && failed
    {
      ok := *;
      if ok { labels := labels + {id}; } else { failed := true; }
    }

    method DeleteLabel(id: nat) returns (ok: bool)
      modifies this`labels, this`failed
      ensures if ok then labels == old(labels) - {id} && failed == old(failed) else labels == old(labels) && failed
    {
      ok := *;
      if ok { labels := labels - {id}; } else { failed := true; }
    }

    /** One existing label of `/label`: stored, then told. */
    method AddLabel(l: LabelDef) returns (ok: bool, added: bool)
      requires Valid() && appliedLabels == Some(labels) && l in w.labels
      modifies this`labels, this`appliedLabels, this`events, this`failed, this`lost
      ensures Valid() && (!ok ==> failed) && (old(failed) ==> failed) && (ok ==> appliedLabels == Some(labels))
      ensures !failed ==> added == (l.id !in old(labels)) && labels == old(labels) + {l.id}
                          && events == old(events) + if added then [Labeled(l.name, l.color)] else []
    {
      ghost var before := Stored();
      if l.id in appliedLabels.value { return true, false; }
      ok := InsertLabel(l.id);
      if !ok { return false, false; }
      appliedLabels := Some(appliedLabels.value + {l.id});
      NamesAdd(w, before.labels, l);
      ok := Announce(Labeled(l.name, l.color), before);
      added := true;
    }

    /** One label of `/unlabel`: deleted, then told. */
    method DropLabel(l: LabelDef) returns (ok: bool, dropped: bool)
      requires Valid() && appliedLabels == Some(labels) && l in w.labels
      modifies this`labels, this`appliedLabels, this`events, this`failed, this`lost
      ensures Valid() && (!ok ==> failed) && (old(failed) ==> failed) && (ok ==> appliedLabels == Some(labels))
      ensures !failed ==> dropped == (l.id in old(labels)) && labels == old(labels) - {l.id}
                          && events == old(events) + if dropped then [Unlabeled(l.name, l.color)] else []
    {
      ghost var before := Stored();
      if l.id !in appliedLabels.value { return true, false; }
      ok := DeleteLabel(l.id);
      if !ok { return false, false; }
      appliedLabels := Some(appliedLabels.value - {l.id});
      NamesDrop(w, before.labels, l);
      ok := Announce(Unlabeled(l.name, l.color), before);
      dropped := true;
    }

    /** One turn of the loop of `/label`. */
    method AddNamed(name: string, ghost rest: seq<string>) returns (ok: bool, added: bool)
      requires Valid() && appliedLabels == Some(labels)
      modifies this`labels, this`appliedLabels, this`events, this`notes, this`failed, this`lost
      ensures Valid() && (!ok ==> failed) && (old(failed) ==> failed) && (ok ==> appliedLabels == Some(labels))
      ensures !failed ==> AddGoal(w, Stored(), events, notes, rest) == AddGoal(w, old(Stored()), old(events), old(notes), [name] + rest)
      ensures !failed ==> old(labels) <= labels && (added <==> labels != old(labels))
    {
      added := false;
      ok := Query();
      if !ok { return; }
      var found := FindLabel(w, w.labels, name);
      if found.None? {
        AddGoalUnknown(w, Stored(), events, notes, name, rest);
        Reject();
        return;
      }
      AddGoalKnown(w, Stored(), events, notes, name, found.value, rest);
      ok, added := AddLabel(found.value);
    }

    /** The loop of `/label`. */
    method AddAllNamed(names: seq<string>) returns (ok: bool, added: bool)
      requires Valid() && appliedLabels == Some(labels)
      modifies this`labels, this`appliedLabels, this`events, this`notes, this`failed, this`lost
      ensures Valid() && (!ok ==> failed) && (old(failed) ==> failed)
      ensures !failed ==> AddGoal(w, Stored(), events, notes, []) == AddGoal(w, old(Stored()), old(events), old(notes), names)
      ensures !failed ==> old(labels) <= labels && (added <==> labels != old(labels))
    {
      added := false;
      assert names[0..] == names;
      for n := 0 to |names|
        invariant Valid() && appliedLabels == Some(labels) && (old(failed) ==> failed)
        invariant !failed ==> AddGoal(w, Stored(), events, notes, names[n..]) == AddGoal(w, old(Stored()), old(events), old(notes), names)
        invariant !failed ==> old(labels) <= labels && (added <==> labels != old(labels))
      {
        assert names[n..] == [names[n]] + names[n + 1..];
        var done, this_ := AddNamed(names[n], names[n + 1..]);
        if !done { return false, added; }
        added := added || this_;
      }
      ok := true;
    }

    method AddLabels(names: seq<string>) returns (ok: bool)
      requires Valid()
      modifies this
      ensures Valid() && (!ok ==> failed) && (old(failed) ==> failed)
      ensures !failed ==> Came(LabelEffect(w, who, old(Stored()), names), old(events), old(notes))
    {
      if !who.writer { Reject(); return true; }
      if names == [] { Reject(); return true; }
      ok := LoadLabels();
      if !ok { return; }
      ghost var before, events0, notes0 := Stored(), events, notes;
      var added;
      ok, added := AddAllNamed(names);
      if !ok { return; }
      AddGoalDone(w, who, before, events0, notes0, names, Outcome(Stored(), events, notes));
      if added { Apply(); }
    }

    /** One turn of the named loop of `/unlabel`. */
    method DropNamed(name: string, ghost rest: seq<string>) returns (ok: bool, dropped: bool)
      requires Valid() && appliedLabels == Some(labels)
      modifies this`labels, this`appliedLabels, this`events, this`failed, this`lost
      ensures Valid() && (!ok ==> failed) && (old(failed) ==> failed) && (ok ==> appliedLabels == Some(labels))
      ensures !failed ==> DropGoal(Stored(), events, Found(w, rest)) == DropGoal(old(Stored()), old(events), Found(w, [name] + rest))
      ensures !failed ==> labels <= old(labels) && (dropped <==> labels != old(labels))
    {
      dropped := false;
      ok := Query();
      if !ok { return; }
      var found := FindLabel(w, w.labels, name);
      assert ([name] + rest)[1..] == rest;
      if found.None? { return; }
      DropGoalNext(Stored(), events, found.value, Found(w, rest));
      ok, dropped := DropLabel(found.value);
    }

    /** `/unlabel` with names. */
    method DropAllNamed(names: seq<string>) returns (ok: bool, dropped: bool)
      requires Valid() && appliedLabels == Some(labels)
      modifies this`labels, this`appliedLabels, this`events, this`failed, this`lost
      ensures Valid() && (!ok ==> failed) && (old(failed) ==> failed)
      ensures !failed ==> DropGoal(Stored(), events, []) == DropGoal(old(Stored()), old(events), Found(w, names))
      ensures !failed ==> labels <= old(labels) && (dropped <==> labels != old(labels))
    {
      dropped := false;
      assert names[0..] == names;
      for n := 0 to |names|
        invariant Valid() && appliedLabels == Some(labels) && (old(failed) ==> failed)
        invariant !failed ==> DropGoal(Stored(), events, Found(w, names[n..])) == DropGoal(old(Stored()), old(events), Found(w, names))
        invariant !failed ==> labels <= old(labels) && (dropped <==> labels != old(labels))
      {
        assert names[n..] == [names[n]] + names[n + 1..];
        var done, this_ := DropNamed(names[n], names[n + 1..]);
        if !done { return false, dropped; }
        dropped := dropped || this_;
      }
      ok := true;
    }

    /** `/unlabel` without names: every label of the repository that is applied. */
    method DropEvery() returns (ok: bool, dropped: bool)
      requires Valid() && appliedLabels == Some(labels)
      modifies this`labels, this`appliedLabels, this`events, this`failed, this`lost
      ensures Valid() && (!ok ==> failed) && (old(failed) ==> failed)
      ensures !failed ==> DropGoal(Stored(), events, []) == DropGoal(old(Stored()), old(events), w.labels)
      ensures !failed ==> labels <= old(labels) && (dropped <==> labels != old(labels))
    {
      dropped := false;
      ok := Query();
      if !ok { return; }
      assert w.labels[0..] == w.labels;
      for n := 0 to |w.labels|
        invariant Valid() && appliedLabels == Some(labels) && (old(failed) ==> failed)
        invariant !failed ==> DropGoal(Stored(), events, w.labels[n..]) == DropGoal(old(Stored()), old(events), w.labels)
        invariant !failed ==> labels <= old(labels) && (dropped <==> labels != old(labels))
      {
        assert w.labels[n..] == [w.labels[n]] + w.labels[n + 1..];
        DropGoalNext(Stored(), events, w.labels[n], w.labels[n + 1..]);
        var done, this_ := DropLabel(w.labels[n]);
        if !done { return false, dropped; }
        dropped := dropped || this_;
      }
      ok := true;
    }

    method DropLabels(names: seq<string>) returns (ok: bool)
      requires Valid()
      modifies this
      ensures Valid() && (!ok ==> failed) && (old(failed) ==> failed)
      ensures !failed ==> Came(UnlabelEffect(w, who, old(Stored()), names), old(events), old(notes))
    {
      if !who.writer { Reject(); return true; }
      ok := LoadLabels();
      if !ok { return; }
      ghost var before, events0 := Stored(), events;
      var dropped;
      if names == [] { ok, dropped := DropEvery(); } else { ok, dropped := DropAllNamed(names); }
      if !ok { return; }
      DropGoalDone(w, who, before, events0, names, Outcome(Stored(), events, notes));
      if dropped { Apply(); }
    }

    method Dispatch(cmd: Command) returns (ok: bool)
      requires Valid()
      modifies this
      ensures Valid() && (!ok ==> failed) && (old(failed) ==> failed)
      ensures !failed ==> Came(Effect(w, who, old(Stored()), cmd), old(events), old(notes))
    {
      match cmd
      case Close => ok := SetState(Closed);
      case Reopen => ok := SetState(Open);
      case Title(arg) => ok := SetTitle(arg);
      case Assign(arg) => ok := SetAssignee(FirstWord(arg));
      case Unassign => ok := ClearAssignee();
      case Label(names) => ok := AddLabels(names);
      case Unlabel(names) => ok := DropLabels(names);
      case Estimate(arg) =>
        var minutes := Duration.ParseDuration(Some(arg));
        ok := SetEstimate(minutes);
      case Spend(arg) =>
        var delta := Duration.ParseDuration(Some(arg));
        ok := AddSpent(delta);
      case RemoveEstimate => ok := ClearEstimate();
      case RemoveTimeSpent => ok := ClearSpent();
      case Milestone(arg) => ok := SetMilestone(MilestoneTitle(arg));
      case RemoveMilestone => ok := ClearMilestone();
      case Unknown =>
        Reject();
        ok := true;
    }

    /**
     * Whatever fails, after every command the working copy is the stored row and the row is sound; while no event is
     * lost the timeline tells the whole change; and when nothing fails the outcome is that of the commands in order.
     */
    method ApplyAll(cmds: seq<Command>)
      requires Valid()
      modifies this
      ensures Valid() && (old(failed) ==> failed)
      ensures !failed ==> Came(Effects(w, who, old(Stored()), cmds), old(events), old(notes))
    {
      ghost var events0, notes0 := events, notes;
      ghost var goal := Effects(w, who, Stored(), cmds);
      assert cmds[0..] == cmds;
      for n := 0 to |cmds|
        invariant Valid() && (old(failed) ==> failed)
        invariant !failed ==> Leads(w, who, Outcome(Stored(), events, notes), cmds[n..], events0, notes0, goal)
      {
        LeadsOn(w, who, Outcome(Stored(), events, notes), cmds[n..], events0, notes0, goal);
        assert cmds[n..][1..] == cmds[n + 1..];
        var ok := Dispatch(cmds[n]);
        if !ok { Reject(); }
      }
    }
  }

  /** From `now`, the commands left lead to `goal` on top of the timeline and notes there were at first. */
  ghost predicate Leads(w: World, who: Actor, now: Outcome, cmds: seq<Command>, events0: seq<Event>, notes0: seq<Note>, goal: Outcome) {
    var rest := Effects(w, who, now.issue, cmds);
    rest.issue == goal.issue && now.events + rest.events == events0 + goal.events && now.notes + rest.notes == notes0 + goal.notes
  }

  lemma LeadsOn(w: World, who: Actor, now: Outcome, cmds: seq<Command>, events0: seq<Event>, notes0: seq<Note>, goal: Outcome)
    requires cmds != []
    ensures var o := Effect(w, who, now.issue, cmds[0]);
            Leads(w, who, now, cmds, events0, notes0, goal)
            ==> Leads(w, who, Outcome(o.issue, now.events + o.events, now.notes + o.notes), cmds[1..], events0, notes0, goal)
  {
    var o := Effect(w, who, now.issue, cmds[0]);
    var rest := Effects(w, who, o.issue, cmds[1..]);
    Assoc(now.events, o.events, rest.events);
    Assoc(now.notes, o.notes, rest.notes);
  }

  /**
   * `applyIssueCommands` on an issue: see `ApplyAll`. `failed` says that some query or write failed, `lost` that an
   * event was not recorded. When nothing fails, each command has made of the issue, and been noted,
   * as `Does` says.
   */
  method ApplyIssueCommands(w: World, who: Actor, issue: Issue, cmds: seq<Command>) returns (c: IssueCommands)
    requires WorldSound(w) && RowSound(issue.row)
    ensures c.CopyAgrees() && RowSound(c.row)
    ensures !c.lost ==> Replay(ViewOf(w, issue), c.events) == ViewOf(w, c.Stored())
    ensures !c.failed ==> !c.lost && Outcome(c.Stored(), c.events, c.notes) == Effects(w, who, issue, cmds)
    ensures !c.failed ==> DoesAll(w, who, issue, cmds, c.Stored(), c.notes)
  {
    c := new IssueCommands(w, who, issue);
    c.ApplyAll(cmds);
    EffectsDo(w, who, issue, cmds);
  }

  // ---------------------------------------------------------------------- pull requests

  datatype PullState = PullOpen | PullClosed | Merged

  /** The state a command asks for; only `/close` and `/reopen` are available. */
  function Target(cmd: Command): Option<PullState> {
    if cmd.Close? then Some(PullClosed) else if cmd.Reopen? then Some(PullOpen) else None
  }

  function PullAfter(canModify: bool, state: PullState, cmds: seq<Command>): PullState
    decreases |cmds|
  {
    if cmds == [] || !canModify || state == Merged then state
    else PullAfter(canModify, if Target(cmds[0]).Some? then Target(cmds[0]).value else state, cmds[1..])
  }

  /** Only the last command that asks for a state counts, for those who may ask, and never on a merged pull request. */
  lemma {:induction false} LastAskCounts(canModify: bool, state: PullState, cmds: seq<Command>, last: Command, rest: seq<Command>)
    requires Target(last).Some? && forall k :: 0 <= k < |rest| ==> Target(rest[k]).None?
    ensures PullAfter(canModify, state, cmds + [last] + rest) == if canModify && state != Merged then Target(last).value else state
    decreases |cmds|
  {
    var all := cmds + [last] + rest;
    if cmds == [] {
      assert all[1..] == rest;
      if canModify && state != Merged { NoAskChanges(canModify, Target(last).value, rest); }
    } else {
      assert all[1..] == cmds[1..] + [last] + rest;
      if canModify && state != Merged {
        LastAskCounts(canModify, if Target(cmds[0]).Some? then Target(cmds[0]).value else state, cmds[1..], last, rest);
      }
    }
  }

  lemma {:induction false} NoAskChanges(canModify: bool, state: PullState, cmds: seq<Command>)
    requires forall k :: 0 <= k < |cmds| ==> Target(cmds[k]).None?
    ensures PullAfter(canModify, state, cmds) == state
    decreases |cmds|
  {
    if cmds != [] { NoAskChanges(canModify, state, cmds[1..]); }
  }

  /** What the closing and reopening events of a timeline make of a state. */
  function PullTold(state: PullState, events: seq<Event>): PullState {
    if events == [] then state else if events[|events| - 1] == ClosedEvent then PullClosed else PullOpen
  }

  class PullCommands {
    const canModify: bool
    var stored: PullState
    var state: PullState
    var events: seq<Event>
    var notes: seq<Note>
    ghost var failed: bool
    ghost var lost: bool

    constructor (canModify: bool, pr: PullState)
      ensures this.canModify == canModify && stored == state == pr && events == [] && notes == [] && !failed && !lost
    {
      this.canModify, stored, state, events, notes := canModify, pr, pr, [], [];
      failed, lost := false, false;
    }

    /** The update and the event of one command, either of which may fail. */
    method Move(target: PullState) returns (ok: bool)
      requires target != Merged && state == stored
      modifies this
      ensures state == stored && notes == old(notes) && (old(failed) ==> failed) && (old(lost) ==> lost) && (!ok ==> failed)
      ensures stored == target || stored == old(stored)
      ensures ok ==> stored == target && events == old(events) + [if target == PullClosed then ClosedEvent else ReopenedEvent]
                     && failed == old(failed) && lost == old(lost)
      ensures !ok ==> events == old(events) && (stored != old(stored) ==> lost)
    {
      ok := *;
      if !ok { failed := true; return; }
      stored := target;
      state := target;
      ok := *;
      if !ok { failed, lost := true, true; return; }
      events := events + [if target == PullClosed then ClosedEvent else ReopenedEvent];
    }

    /** `applyPullCommands`. */
    method ApplyAll(cmds: seq<Command>)
      requires state == stored && events == [] && notes == [] && !failed && !lost
      modifies this
      ensures state == stored && |notes| == |cmds|
      ensures old(stored) == Merged || !canModify ==> stored == old(stored) && events == []
      ensures !lost ==> stored == PullTold(old(stored), events)
      ensures !failed ==> stored == PullAfter(canModify, old(stored), cmds)
      ensures !failed ==> forall k :: 0 <= k < |cmds| ==>
                (notes[k] == Rejected <==> Target(cmds[k]).None? || !canModify || old(stored) == Merged)
    {
      assert cmds[0..] == cmds;
      for n := 0 to |cmds|
        invariant state == stored && |notes| == n && (lost ==> failed) && (stored == Merged <==> old(stored) == Merged)
        invariant old(stored) == Merged || !canModify ==> stored == old(stored) && events == []
        invariant !lost ==> stored == PullTold(old(stored), events)
        invariant !failed ==> PullAfter(canModify, stored, cmds[n..]) == PullAfter(canModify, old(stored), cmds)
        invariant !failed ==> forall k :: 0 <= k < n ==>
                    (notes[k] == Rejected <==> Target(cmds[k]).None? || !canModify || old(stored) == Merged)
      {
        assert cmds[n..][1..] == cmds[n + 1..];
        var target := Target(cmds[n]);
        if target.None? || !canModify || state == Merged {
          notes := notes + [Rejected];
          continue;
        }
        if state == target.value {
          notes := notes + [Applied];
          continue;
        }
        var ok := Move(target.value);
        notes := notes + [if ok then Applied else Rejected];
      }
    }
  }
}
