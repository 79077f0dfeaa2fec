/**
 * `minerva.todos`: which notes of a todo list are todos, how each is built
 * (title, status, metadata) and the order they are listed in.  Firestore
 * streaming is left to the caller, who passes the snapshots; due-date
 * parsing is passed in as a function onto optional integer instants.
 */
module Todos {
  import opened Wrappers
  import opened Seqs
  import opened Text
  import opened Assoc
  import opened Doc
  import opened Order

  type Data = Dict<string, Value>

  /** A document or note: its id and `to_dict()`, absent for a missing document. */
  datatype Snapshot = Snapshot(id: string, fields: Option<Data>)

  datatype Todo = Todo(id: string, title: string, dueDate: Option<int>, status: string, metadata: Data)

  /** Turns the raw due-date field into an instant (`_normalise_due_date`). */
  type DueParser = Option<Value> -> Option<int>

  /** `snapshot.to_dict() or {}`. */
  function DataOf(s: Snapshot): Data {
    s.fields.GetOr([])
  }

  // ---------------------------------------------------------------------
  // _is_todo_data

  /** `t` spells `todo` in any mix of cases. */
  predicate IsTodoWord(t: string) {
    && |t| == 4
    && (t[0] == 't' || t[0] == 'T') && (t[1] == 'o' || t[1] == 'O')
    && (t[2] == 'd' || t[2] == 'D') && (t[3] == 'o' || t[3] == 'O')
  }

  /** The note's `type` is a string equal to `todo` ignoring case. */
  function IsTodoData(data: Data): (b: bool)
    ensures b <==> Get(data, "type").Some? && Get(data, "type").value.Str? && IsTodoWord(Get(data, "type").value.s)
  {
    var todoType := Get(data, "type");
    if todoType.Some? && todoType.value.Str? then
      var t := todoType.value.s;
      assert Lower(t) == "todo" <==> IsTodoWord(t) by {
        LowerIsTodo(t);
      }
      Lower(t) == "todo"
    else false
  }

  lemma LowerIsTodo(t: string)
    ensures Lower(t) == "todo" <==> IsTodoWord(t)
  {
    if |t| == 4 && IsTodoWord(t) {
      assert Lower(t) == [LowerChar(t[0]), LowerChar(t[1]), LowerChar(t[2]), LowerChar(t[3])];
    }
    if Lower(t) == "todo" {
      assert Lower(t)[0] == 't' && Lower(t)[1] == 'o' && Lower(t)[2] == 'd' && Lower(t)[3] == 'o';
    }
  }

  // ---------------------------------------------------------------------
  // _determine_status

  const Completed: string := "completed"
  const Pending: string := "pending"
  const Unknown: string := "unknown"

  /** The note carries a `status` string that is not blank. */
  predicate HasGivenStatus(data: Data) {
    Get(data, "status").Some? && Get(data, "status").value.Str? && Strip(Get(data, "status").value.s) != []
  }

  /** `"completed" if bool(flag) else "pending"`. */
  function FlagStatus(flag: Value): string {
    if Truthy(flag) then Completed else Pending
  }

  /** A todo's status: the given status, else its `completed` or `done` flag, else unknown. */
  function DetermineStatus(data: Data): (status: string)
    ensures status != [] && IsTrimmed(status)
  {
    if HasGivenStatus(data) then Strip(Get(data, "status").value.s)
    else
      match Get(data, "completed")
      case Some(flag) => FlagStatus(flag)
      case None =>
        match Get(data, "done")
        case Some(flag) => FlagStatus(flag)
        case None => Unknown
  }

  /**
   * The status rules in priority order: a non-blank `status` string wins,
   * trimmed; else a present `completed` key, else a present `done` key,
   * decides by truthiness; else `unknown`.  The result is never blank.
   */
  lemma StatusRules(data: Data)
    ensures HasGivenStatus(data) ==> DetermineStatus(data) == Strip(Get(data, "status").value.s)
    ensures !HasGivenStatus(data) && HasKey(data, "completed") ==>
      DetermineStatus(data) == (if Truthy(Get(data, "completed").value) then Completed else Pending)
    ensures !HasGivenStatus(data) && !HasKey(data, "completed") && HasKey(data, "done") ==>
      DetermineStatus(data) == (if Truthy(Get(data, "done").value) then Completed else Pending)
    ensures !HasGivenStatus(data) && !HasKey(data, "completed") && !HasKey(data, "done") ==>
      DetermineStatus(data) == Unknown
  {
  }

  /** Writing the determined status back into the note determines the same status. */
  lemma StatusStable(data: Data)
    ensures DetermineStatus(Put(data, "status", Str(DetermineStatus(data)))) == DetermineStatus(data)
  {
    var status := DetermineStatus(data);
    StripOfTrimmed(status);
  }

  // ---------------------------------------------------------------------
  // Titles: `data.get(k1) or data.get(k2) or ... or fallback`

  predicate TruthyAt(data: Data, key: string) {
    Get(data, key).Some? && Truthy(Get(data, key).value)
  }

  /** The value of the first key holding a truthy value. */
  function FirstTruthy(data: Data, keys: seq<string>): (r: Option<Value>)
    ensures r.None? <==> forall i :: 0 <= i < |keys| ==> !TruthyAt(data, keys[i])
    ensures r.Some? ==>
      exists i :: (0 <= i < |keys| && TruthyAt(data, keys[i]) && r == Get(data, keys[i])
        && forall j :: 0 <= j < i ==> !TruthyAt(data, keys[j]))
    decreases |keys|
  {
    if keys == [] then None
    else if TruthyAt(data, keys[0]) then Get(data, keys[0])
    else
      var r := FirstTruthy(data, keys[1..]);
      assert forall i :: 1 <= i < |keys| ==> keys[i] == keys[1..][i - 1];
      r
  }

  /** `str(first truthy value or fallback)`. */
  function TitleOf(data: Data, keys: seq<string>, fallback: string): string {
    match FirstTruthy(data, keys)
    case Some(v) => ToStr(v)
    case None => fallback
  }

  const TodoTitleKeys: seq<string> := ["title", "name", "text", "content"]
  const ListTitleKeys: seq<string> := ["name", "title", "label", "createdAt"]

  /**
   * A title is the printed value of the first key, in order, whose value is
   * truthy, or the fallback id when none is.
   */
  lemma TitleRule(data: Data, keys: seq<string>, fallback: string)
    ensures (forall i :: 0 <= i < |keys| ==> !TruthyAt(data, keys[i])) ==> TitleOf(data, keys, fallback) == fallback
    ensures forall i :: 0 <= i < |keys| && TruthyAt(data, keys[i]) && (forall j :: 0 <= j < i ==> !TruthyAt(data, keys[j])) ==>
      TitleOf(data, keys, fallback) == ToStr(Get(data, keys[i]).value)
  {
    var r := FirstTruthy(data, keys);
    forall i | 0 <= i < |keys| && TruthyAt(data, keys[i]) && (forall j :: 0 <= j < i ==> !TruthyAt(data, keys[j]))
      ensures TitleOf(data, keys, fallback) == ToStr(Get(data, keys[i]).value)
    {
      assert r.Some?;
      var i0 :| 0 <= i0 < |keys| && TruthyAt(data, keys[i0]) && r == Get(data, keys[i0])
        && forall j :: 0 <= j < i0 ==> !TruthyAt(data, keys[j]);
      FirstTruthyIndex(data, keys, i0, i);
    }
  }

  /** Two indices that are each the first truthy key are the same index. */
  lemma FirstTruthyIndex(data: Data, keys: seq<string>, i: nat, i': nat)
    requires i < |keys| && TruthyAt(data, keys[i]) && forall j :: 0 <= j < i ==> !TruthyAt(data, keys[j])
    requires i' < |keys| && TruthyAt(data, keys[i']) && forall j :: 0 <= j < i' ==> !TruthyAt(data, keys[j])
    ensures i == i'
  {
  }

  /** The display title of a todo list document (`_build_todo_list`). */
  function ListTitle(documentId: string, data: Data): string {
    TitleOf(data, ListTitleKeys, documentId)
  }

  // ---------------------------------------------------------------------
  // _build_todo

  const ReservedKeys: set<string> := {"title", "name", "text", "content", "type"}

  /** `{key: value for key, value in d.items() if key not in excluded}`. */
  function Without(d: Data, excluded: set<string>): (r: Data)
    ensures forall e :: e in r <==> e in d && e.0 !in excluded
    decreases |d|
  {
    if d == [] then []
    else
      var rest := Without(d[1..], excluded);
      assert forall e :: e in d <==> e == d[0] || e in d[1..];
      if d[0].0 in excluded then rest else [d[0]] + rest
  }

  /** Every key outside the excluded set keeps its value; excluded keys are gone. */
  lemma {:induction false} WithoutGet(d: Data, excluded: set<string>, k: string)
    ensures Get(Without(d, excluded), k) == if k in excluded then None else Get(d, k)
    decreases |d|
  {
    if d != [] {
      WithoutGet(d[1..], excluded, k);
      GetCons(d, k);
      if d[0].0 !in excluded {
        GetCons([d[0]] + Without(d[1..], excluded), k);
        assert ([d[0]] + Without(d[1..], excluded))[1..] == Without(d[1..], excluded);
      }
    } else if k !in excluded {
      assert Get(d, k) == None;
    }
  }

  /** `data.get("dueDate") or data.get("due_date")`. */
  function DueField(data: Data): Option<Value> {
    if TruthyAt(data, "dueDate") then Get(data, "dueDate") else Get(data, "due_date")
  }

  /** The todo built from a note's id and data. */
  function BuildTodo(snapshotId: string, data: Data, parseDue: DueParser): (t: Todo)
    ensures t.id == snapshotId && t.status != [] && IsTrimmed(t.status)
    ensures forall e :: e in t.metadata <==> e in data && e.0 !in ReservedKeys
  {
    Todo(
      snapshotId,
      TitleOf(data, TodoTitleKeys, snapshotId),
      parseDue(DueField(data)),
      DetermineStatus(data),
      Without(data, ReservedKeys))
  }

  // ---------------------------------------------------------------------
  // _todo_sort_key and _fetch_todos

  /**
   * Stands in for `datetime.max`, the due date of an undated todo; undated
   * todos are only ever compared with each other on it, so its value does not
   * matter.
   */
  const UndatedDue: int := 0

  datatype SortKey = SortKey(undated: int, due: int, title: string)

  /** `(0 if due_date else 1, due_date or max, title.lower())`. */
  function KeyOf(t: Todo): SortKey {
    SortKey(if t.dueDate.Some? then 0 else 1, t.dueDate.GetOr(UndatedDue), Lower(t.title))
  }

  /** Python's `<=` on the key tuples. */
  predicate KeyLe(a: SortKey, b: SortKey) {
    a.undated < b.undated
    || (a.undated == b.undated && (a.due < b.due || (a.due == b.due && StrLe(a.title, b.title))))
  }

  predicate TodoLe(a: Todo, b: Todo) {
    KeyLe(KeyOf(a), KeyOf(b))
  }

  lemma TodoLeTotalPreorder()
    ensures TotalPreorder(TodoLe)
  {
    forall a: Todo, b: Todo
      ensures TodoLe(a, b) || TodoLe(b, a)
    {
      StrLeTotal(KeyOf(a).title, KeyOf(b).title);
    }
    forall a: Todo, b: Todo, c: Todo | TodoLe(a, b) && TodoLe(b, c)
      ensures TodoLe(a, c)
    {
      var ka, kb, kc := KeyOf(a), KeyOf(b), KeyOf(c);
      if ka.undated == kb.undated == kc.undated && ka.due == kb.due == kc.due {
        StrLeTransitive(ka.title, kb.title, kc.title);
      }
    }
  }

  /** The todo a note gives, if its type is `todo`. */
  function NoteTodo(s: Snapshot, parseDue: DueParser): Option<Todo> {
    if IsTodoData(DataOf(s)) then Some(BuildTodo(s.id, DataOf(s), parseDue)) else None
  }

  /** The todos built from the todo-typed notes, in arrival order. */
  function Built(snapshots: seq<Snapshot>, parseDue: DueParser): seq<Todo> {
    FilterMap(snapshots, s => NoteTodo(s, parseDue))
  }

  /** A todo is built exactly from each note whose type is `todo`. */
  lemma BuiltMembers(snapshots: seq<Snapshot>, parseDue: DueParser)
    ensures |Built(snapshots, parseDue)| <= |snapshots|
    ensures forall t :: t in Built(snapshots, parseDue) <==>
      exists i :: 0 <= i < |snapshots| && IsTodoData(DataOf(snapshots[i]))
        && t == BuildTodo(snapshots[i].id, DataOf(snapshots[i]), parseDue)
  {
    FilterMapMembers(snapshots, s => NoteTodo(s, parseDue));
  }

  /** What `_fetch_todos` returns: the built todos sorted by their key. */
  function TodosOf(snapshots: seq<Snapshot>, parseDue: DueParser): seq<Todo> {
    Sort(Built(snapshots, parseDue), TodoLe)
  }

  method FetchTodos(snapshots: seq<Snapshot>, parseDue: DueParser) returns (todos: seq<Todo>)
    ensures todos == TodosOf(snapshots, parseDue)
  {
    todos := [];
    for i := 0 to |snapshots|
      invariant todos == Built(snapshots[..i], parseDue)
    {
      assert snapshots[..i + 1][..i] == snapshots[..i];
      assert NoteTodo(snapshots[i], parseDue) == (s => NoteTodo(s, parseDue))(snapshots[i]);
      var data := DataOf(snapshots[i]);
      if !IsTodoData(data) {
        continue;
      }
      todos := todos + [BuildTodo(snapshots[i].id, data, parseDue)];
    }
    assert snapshots[..|snapshots|] == snapshots;
    todos := Sort(todos, TodoLe);
  }

  /**
   * The listed todos are a permutation of the built ones: dated todos first,
   * ascending by due date, ties broken by lower-cased title, and todos with
   * equal keys kept in arrival order.
   */
  lemma FetchOrder(snapshots: seq<Snapshot>, parseDue: DueParser)
    ensures var built := Built(snapshots, parseDue);
      var todos := TodosOf(snapshots, parseDue);
      && multiset(todos) == multiset(built)
      && (forall i, j :: 0 <= i < j < |todos| && todos[j].dueDate.Some? ==> todos[i].dueDate.Some?)
      && (forall i, j :: 0 <= i < j < |todos| && todos[i].dueDate.Some? && todos[j].dueDate.Some? ==>
            todos[i].dueDate.value <= todos[j].dueDate.value)
      && (forall i, j :: 0 <= i < j < |todos| && todos[i].dueDate == todos[j].dueDate ==>
            StrLe(Lower(todos[i].title), Lower(todos[j].title)))
      && (forall v :: Ties(todos, v, TodoLe) == Ties(built, v, TodoLe))
  {
    var built := Built(snapshots, parseDue);
    TodoLeTotalPreorder();
    SortSorted(built, TodoLe);
    forall v
      ensures Ties(Sort(built, TodoLe), v, TodoLe) == Ties(built, v, TodoLe)
    {
      SortStable(built, v, TodoLe);
    }
  }
}
