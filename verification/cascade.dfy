/**
  What the cascading deletes of routes/user.js remove, on the store's
  tables as values: the tasks reached through a list of columns, and the
  fan-out `$pull` of a project id from every user.
 */
module Cascade {
  import opened Records
  import opened StoreOps

  /**
    The tasks a project delete removes when it walks `cols`: for each
    listed column whose record exists, every task id in its `tasks`.
   */
  function TasksOf(cols: seq<Id>, columns: map<Id, Column>): (r: set<Id>)
    ensures forall t :: t in r <==> exists c :: c in cols && c in columns && t in columns[c].tasks
  {
    if cols == [] then {}
    else
      var init, last := cols[..|cols| - 1], cols[|cols| - 1];
      assert forall c :: c in cols <==> c in init || c == last;
      TasksOf(init, columns) + (if last in columns then Elems(columns[last].tasks) else {})
  }

  /** Walking one more column adds that column's tasks, if it exists. */
  lemma TasksOfSnoc(cols: seq<Id>, c: Id, columns: map<Id, Column>)
    ensures TasksOf(cols + [c], columns) == TasksOf(cols, columns) + (if c in columns then Elems(columns[c].tasks) else {})
  {
    assert (cols + [c])[..|cols|] == cols;
  }

  /** A column listed twice contributes its tasks once: TasksOf only grows along the list. */
  lemma ListedColumnTasksIncluded(cols: seq<Id>, columns: map<Id, Column>, c: Id)
    requires c in cols && c in columns
    ensures Elems(columns[c].tasks) <= TasksOf(cols, columns)
  {
  }

  /** `updateMany({}, { $pull: { projects: pid } })`: every user drops pid from its projects. */
  function ScrubAll(users: map<Id, User>, pid: Id): (r: map<Id, User>)
    ensures r.Keys == users.Keys
    ensures forall u :: u in r ==> pid !in r[u].projects
    ensures forall u :: u in r ==> r[u].email == users[u].email
    ensures forall u, q :: u in r && q != pid ==> (q in r[u].projects <==> q in users[u].projects)
  {
    map u | u in users :: users[u].(projects := Pull(users[u].projects, pid))
  }

  /**
    The delete handler first pulls pid from the requester and then from
    everyone; the first pull adds nothing to the second.
   */
  lemma RequesterPullSubsumed(users: map<Id, User>, uid: Id, pid: Id)
    requires uid in users
    ensures ScrubAll(users[uid := users[uid].(projects := Pull(users[uid].projects, pid))], pid)
         == ScrubAll(users, pid)
  {
    PullTwice(users[uid].projects, pid);
  }

  /** A user that did not list pid is left exactly as it was. */
  lemma ScrubLeavesOthers(users: map<Id, User>, pid: Id, u: Id)
    requires u in users && pid !in users[u].projects
    ensures ScrubAll(users, pid)[u] == users[u]
  {
    PullAbsent(users[u].projects, pid);
  }
}
