/**
  The handlers of routes/user.js as methods of one in-memory document store.

  Each handler is run to completion before the next one starts: the
  un-awaited `forEach(async ...)` deletes, the fire-and-forget `updateMany`
  and the un-awaited `user.save()` are taken to finish in program order.
  A handler answers with a `Status` and updates the four tables; `$push`
  appends, `$pull` is `StoreOps.Pull`, `findByIdAndDelete` and `deleteOne`
  remove a key. An update aimed at a missing document (`upsert: true`) is a
  no-op here.
 */
module Routes {
  import opened TaskSchema
  import opened Records
  import opened StoreOps
  import opened Access
  import opened Cascade

  /**
    The store's own consistency: every document id was handed out before
    `next`, emails identify users (as the lookup by email in
    /addUserInProject assumes), and no task lists the same assignee twice.
   */
  ghost predicate Consistent(users: map<Id, User>, projects: map<Id, Project>,
                             columns: map<Id, Column>, tasks: map<Id, Task>, next: Id)
  {
    && (forall k :: k in users ==> k < next)
    && (forall k :: k in projects ==> k < next)
    && (forall k :: k in columns ==> k < next)
    && (forall k :: k in tasks ==> k < next)
    && (forall u, v :: u in users && v in users && users[u].email == users[v].email ==> u == v)
    && (forall t :: t in tasks ==> NoDup(tasks[t].assignUserInTask))
  }

  /**
    The store stays consistent when users keep their ids and emails, every
    other document id is old or handed out between `next` and `next'`, and
    every task still lists its assignees once.
   */
  lemma ConsistentGrows(users: map<Id, User>, projects: map<Id, Project>, columns: map<Id, Column>,
                        tasks: map<Id, Task>, next: Id,
                        users': map<Id, User>, projects': map<Id, Project>, columns': map<Id, Column>,
                        tasks': map<Id, Task>, next': Id)
    requires Consistent(users, projects, columns, tasks, next) && next <= next'
    requires users'.Keys == users.Keys && forall u :: u in users ==> users'[u].email == users[u].email
    requires forall k :: k in projects' ==> k in projects || next <= k < next'
    requires forall k :: k in columns' ==> k in columns || next <= k < next'
    requires forall k :: k in tasks' ==> k in tasks || next <= k < next'
    requires forall t :: t in tasks' ==> NoDup(tasks'[t].assignUserInTask)
    ensures Consistent(users', projects', columns', tasks', next')
  {
  }

  /** The documents POST /projects adds leave a consistent store consistent. */
  lemma ProvisionKeepsConsistent(users: map<Id, User>, projects: map<Id, Project>, columns: map<Id, Column>,
                                 tasks: map<Id, Task>, n: Id, uid: Id, title: string)
    requires Consistent(users, projects, columns, tasks, n) && uid in users
    ensures Consistent(users[uid := users[uid].(projects := users[uid].projects + [n])],
                       projects[n := Project(title, [n + 1, n + 2, n + 3], [])],
                       columns[n + 1 := Column(TodoTitle, n, [n + 4])]
                              [n + 2 := Column(InProgressTitle, n, [])]
                              [n + 3 := Column(DoneTitle, n, [])],
                       tasks[n + 4 := ExampleTask], n + 5)
  {
    ConsistentGrows(users, projects, columns, tasks, n,
                    users[uid := users[uid].(projects := users[uid].projects + [n])],
                    projects[n := Project(title, [n + 1, n + 2, n + 3], [])],
                    columns[n + 1 := Column(TodoTitle, n, [n + 4])]
                           [n + 2 := Column(InProgressTitle, n, [])]
                           [n + 3 := Column(DoneTitle, n, [])],
                    tasks[n + 4 := ExampleTask], n + 5);
  }

  /** Writing a key twice keeps the second value. */
  lemma UpdateTwice<K, V>(m: map<K, V>, k: K, a: V, b: V)
    ensures m[k := a][k := b] == m[k := b]
  {
  }

  /** Writes to two different keys commute. */
  lemma UpdateSwap<K, V>(m: map<K, V>, j: K, k: K, a: V, b: V)
    requires j != k
    ensures m[j := a][k := b] == m[k := b][j := a]
  {
  }

  class BoardStore {
    /** `limitations.PROJECT_COUNT_PER_USER`. */
    const projectLimit: nat
    /** `limitations.COLUMN_COUNT_PER_PROJECT`. */
    const columnLimit: nat

    var users: map<Id, User>
    var projects: map<Id, Project>
    var columns: map<Id, Column>
    var tasks: map<Id, Task>
    /** The next document id the store hands out (stands for ObjectId generation). */
    var nextId: Id

    ghost predicate Valid()
      reads this
    {
      Consistent(users, projects, columns, tasks, nextId)
    }

    /** A store holding the given documents. */
    constructor (projectLimit: nat, columnLimit: nat, users: map<Id, User>, projects: map<Id, Project>,
                 columns: map<Id, Column>, tasks: map<Id, Task>, nextId: Id)
      requires Consistent(users, projects, columns, tasks, nextId)
      ensures Valid()
      ensures this.projectLimit == projectLimit && this.columnLimit == columnLimit
      ensures this.users == users && this.projects == projects
      ensures this.columns == columns && this.tasks == tasks && this.nextId == nextId
    {
      this.projectLimit, this.columnLimit := projectLimit, columnLimit;
      this.users, this.projects, this.columns, this.tasks := users, projects, columns, tasks;
      this.nextId := nextId;
    }

    /** `new Column(...).save()`: store a column of project `pid` under a new id. */
    method SaveColumn(title: string, pid: Id) returns (id: Id)
      modifies this`columns, this`nextId
      ensures id == old(nextId) && nextId == id + 1
      ensures columns == old(columns)[id := Column(title, pid, [])]
    {
      id := nextId;
      nextId := nextId + 1;
      columns := columns[id := Column(title, pid, [])];
    }

    /** `new Task(...).save()`: store a task under a new id. */
    method SaveTask(task: Task) returns (id: Id)
      modifies this`tasks, this`nextId
      ensures id == old(nextId) && nextId == id + 1
      ensures tasks == old(tasks)[id := task]
    {
      id := nextId;
      nextId := nextId + 1;
      tasks := tasks[id := task];
    }

    /**
      The `isColumnAccessibleByUser` loop: walk the user's projects, and for
      each one `populate` finds, overwrite the flag with whether its present
      columns include `cid`.
     */
    method ColumnAccessible(uid: Id, cid: Id) returns (accessible: bool)
      requires uid in users
      ensures accessible == AccessAsCoded(users[uid].projects, projects, columns, cid)
    {
      var ps := users[uid].projects;
      accessible := false;
      var i := 0;
      while i < |ps|
        invariant 0 <= i <= |ps|
        invariant accessible == AccessAsCoded(ps[..i], projects, columns, cid)
      {
        assert ps[..i + 1][..i] == ps[..i];
        if ps[i] in projects {
          accessible := cid in projects[ps[i]].columns && cid in columns;
        }
        i := i + 1;
      }
      assert ps[..|ps|] == ps;
    }

    /** The `forEach` over a column's tasks: `Task.findByIdAndDelete` each one (missing ones are a no-op). */
    method DeleteTasks(ts: seq<Id>)
      modifies this`tasks
      ensures tasks == old(tasks) - Elems(ts)
    {
      var i := 0;
      while i < |ts|
        invariant 0 <= i <= |ts|
        invariant tasks == old(tasks) - Elems(ts[..i])
      {
        assert Elems(ts[..i + 1]) == Elems(ts[..i]) + {ts[i]} by {
          assert ts[..i + 1] == ts[..i] + [ts[i]];
        }
        tasks := tasks - {ts[i]};
        i := i + 1;
      }
      assert ts[..|ts|] == ts;
    }

    /**
      The `forEach` over a project's columns: for each column `findById`
      finds, delete its tasks, then the column. A column already gone (listed
      twice, or dangling) makes its callback throw and is skipped.
     */
    method DeleteColumns(cols: seq<Id>)
      modifies this`tasks, this`columns
      ensures columns == old(columns) - Elems(cols)
      ensures tasks == old(tasks) - TasksOf(cols, old(columns))
    {
      var i := 0;
      while i < |cols|
        invariant 0 <= i <= |cols|
        invariant columns == old(columns) - Elems(cols[..i])
        invariant tasks == old(tasks) - TasksOf(cols[..i], old(columns))
      {
        var c := cols[i];
        assert cols[..i + 1] == cols[..i] + [c];
        assert Elems(cols[..i + 1]) == Elems(cols[..i]) + {c};
        TasksOfSnoc(cols[..i], c, old(columns));
        if c in columns {
          assert columns[c] == old(columns)[c];
          DeleteTasks(columns[c].tasks);
          columns := columns - {c};
        } else if c in old(columns) {
          ListedColumnTasksIncluded(cols[..i], old(columns), c);
        }
        i := i + 1;
      }
      assert cols[..|cols|] == cols;
    }

    /**
      The documents a successful POST /projects leaves behind, with `n` the
      first id it hands out: the requester lists the new project `n` last;
      project `n` has columns `n + 1`, `n + 2`, `n + 3` ("To-Do", "In
      Progress", "Done", each pointing back at `n`); the To-Do column holds
      the example task `n + 4`; nothing else changes.
     */
    twostate predicate ProjectProvisioned(uid: Id, title: string)
      requires old(uid in users)
      reads this
    {
      var n := old(nextId);
      && users == old(users)[uid := old(users[uid]).(projects := old(users[uid].projects) + [n])]
      && projects == old(projects)[n := Project(title, [n + 1, n + 2, n + 3], [])]
      && columns == old(columns)[n + 1 := Column(TodoTitle, n, [n + 4])]
                                [n + 2 := Column(InProgressTitle, n, [])]
                                [n + 3 := Column(DoneTitle, n, [])]
      && tasks == old(tasks)[n + 4 := ExampleTask]
      && nextId == n + 5
    }

    /**
      The creation steps of POST /projects, once validation and the quota
      check have passed, in the handler's order: save the project, push it
      onto the requester, save the three default columns, push them onto the
      project, save the example task, push it onto To-Do. The steps work on
      copies of the tables, written back together at the end.
     */
    method ProvisionProject(uid: Id, title: string)
      requires uid in users
      modifies this
      ensures ProjectProvisioned(uid, title)
    {
      var us, ps, cs, ts := users, projects, columns, tasks;
      var pid := nextId;
      ps := ps[pid := Project(title, [], [])];
      us := us[uid := us[uid].(projects := us[uid].projects + [pid])];
      var todo, inProgress, done := pid + 1, pid + 2, pid + 3;
      cs := cs[todo := Column(TodoTitle, pid, [])];
      cs := cs[inProgress := Column(InProgressTitle, pid, [])];
      cs := cs[done := Column(DoneTitle, pid, [])];
      assert ps[pid].columns + [todo, inProgress, done] == [todo, inProgress, done];
      ps := ps[pid := ps[pid].(columns := ps[pid].columns + [todo, inProgress, done])];
      var example := pid + 4;
      ts := ts[example := ExampleTask];
      assert cs[todo].tasks + [example] == [example];
      cs := cs[todo := cs[todo].(tasks := cs[todo].tasks + [example])];
      // Reorder the column writes so that the two writes of To-Do meet.
      ghost var c0, a := old(columns), Column(TodoTitle, pid, []);
      ghost var a', b, c := Column(TodoTitle, pid, [example]), Column(InProgressTitle, pid, []), Column(DoneTitle, pid, []);
      UpdateSwap(c0[todo := a][inProgress := b], done, todo, c, a');
      UpdateSwap(c0[todo := a], inProgress, todo, b, a');
      UpdateTwice(c0, todo, a, a');
      UpdateTwice(old(projects), pid, Project(title, [], []), Project(title, [todo, inProgress, done], []));
      users, projects, columns, tasks, nextId := us, ps, cs, ts, pid + 5;
    }

    /** POST /projects: create a project with its three default columns and an example task. */
    method CreateProject(uid: Id, bodyOk: bool, title: string) returns (st: Status)
      requires Valid() && uid in users
      modifies this
      ensures Valid()
      ensures !bodyOk ==> st == ServerError && unchanged(this)
      ensures bodyOk && |old(users[uid].projects)| >= projectLimit ==> st == TooManyRequests && unchanged(this)
      ensures bodyOk && |old(users[uid].projects)| < projectLimit ==>
        && st == Ok
        && old(nextId) !in old(projects)
        && old(nextId) + 1 !in old(columns) && old(nextId) + 2 !in old(columns) && old(nextId) + 3 !in old(columns)
        && old(nextId) + 4 !in old(tasks)
        && ProjectProvisioned(uid, title)
    {
      if !bodyOk {
        return ServerError;  // `await project.joiValidate(...)` rejects
      }
      if |users[uid].projects| >= projectLimit {
        return TooManyRequests;
      }
      ProvisionKeepsConsistent(users, projects, columns, tasks, nextId, uid, title);
      ProvisionProject(uid, title);
      st := Ok;
    }

    /**
      GET /projects: without an id, the user's present projects in list
      order; with one, that project when the user lists it and it exists.
     */
    method GetProjects(uid: Id, p: Param) returns (st: Status, found: seq<Id>)
      requires uid in users
      ensures p.Absent? ==> st == Ok && found == Live(users[uid].projects, projects)
      ensures p.Malformed? ==> st == BadRequest && found == []
      ensures p.Given? && p.id !in users[uid].projects ==> st == Forbidden && found == []
      ensures p.Given? && p.id in users[uid].projects && p.id !in projects ==> st == NotFound && found == []
      ensures p.Given? && p.id in users[uid].projects && p.id in projects ==> st == Ok && found == [p.id]
    {
      match p
      case Absent =>
        st, found := Ok, Live(users[uid].projects, projects);
      case Malformed =>
        st, found := BadRequest, [];
      case Given(pid) =>
        if pid !in users[uid].projects {
          st, found := Forbidden, [];
        } else if pid !in projects {
          st, found := NotFound, [];
        } else {
          st, found := Ok, [pid];
        }
    }

    /**
      DELETE /projects: cascade through the project's columns and their
      tasks, delete the project, then pull its id from the requester and
      from every user. `removedMeanwhile` says whether another request
      removed the project record between this handler's read of it and its
      `deleteOne`, the one way `deletedCount` can be zero once the read
      succeeded: the children are gone by then, and no user is scrubbed.
     */
    method DeleteProject(uid: Id, p: Param, removedMeanwhile: bool) returns (st: Status)
      requires Valid() && uid in users
      modifies this
      ensures Valid()
      ensures !p.Given? ==> st == BadRequest && unchanged(this)
      ensures p.Given? && p.id !in old(users[uid].projects) ==> st == Forbidden && unchanged(this)
      ensures p.Given? && p.id in old(users[uid].projects) && p.id !in old(projects) ==>
        st == ServerError && unchanged(this)
      ensures p.Given? && p.id in old(users[uid].projects) && p.id in old(projects) ==>
        var cols := old(projects[p.id].columns);
        && columns == old(columns) - Elems(cols)
        && tasks == old(tasks) - TasksOf(cols, old(columns))
        && projects == old(projects) - {p.id}
        && nextId == old(nextId)
        && (if removedMeanwhile then st == ServerError && users == old(users)
            else st == Ok && users == ScrubAll(old(users), p.id))
      ensures st == Ok ==> forall u :: u in users ==> p.id !in users[u].projects
    {
      if !p.Given? {
        return BadRequest;
      }
      var pid := p.id;
      if pid !in users[uid].projects {
        return Forbidden;
      }
      if pid !in projects {
        return ServerError;  // `columns["columns"]` on a null project throws
      }
      DeleteColumns(projects[pid].columns);
      if removedMeanwhile {
        projects := projects - {pid};
      }
      var deletedCount := if pid in projects then 1 else 0;
      projects := projects - {pid};
      if deletedCount > 0 {
        RequesterPullSubsumed(users, uid, pid);
        users := users[uid := users[uid].(projects := Pull(users[uid].projects, pid))];
        users := ScrubAll(users, pid);
        st := Ok;
      } else {
        st := ServerError;
      }
    }

    /** PUT /projects: set the fields of a project the user lists (here its title). */
    method UpdateProject(uid: Id, p: Param, bodyOk: bool, title: string) returns (st: Status)
      requires Valid() && uid in users
      modifies this
      ensures Valid()
      ensures !p.Given? ==> st == BadRequest
      ensures p.Given? && p.id !in old(users[uid].projects) ==> st == Forbidden
      ensures p.Given? && p.id in old(users[uid].projects) && !bodyOk ==> st == ServerError
      ensures p.Given? && p.id in old(users[uid].projects) && bodyOk && p.id !in old(projects) ==> st == NotFound
      ensures st != Ok ==> unchanged(this)
      ensures st == Ok <==> p.Given? && p.id in old(users[uid].projects) && bodyOk && p.id in old(projects)
      ensures st == Ok ==>
        && projects == old(projects)[p.id := old(projects[p.id]).(title := title)]
        && users == old(users) && columns == old(columns) && tasks == old(tasks) && nextId == old(nextId)
    {
      if !p.Given? {
        return BadRequest;
      }
      var pid := p.id;
      if pid !in users[uid].projects {
        return Forbidden;
      }
      if !bodyOk {
        return ServerError;
      }
      if pid !in projects {
        return NotFound;
      }
      projects := projects[pid := projects[pid].(title := title)];
      st := Ok;
    }

    /** POST /columns: add a column to a project the user lists, within the column quota. */
    method CreateColumn(uid: Id, p: Param, bodyOk: bool, title: string) returns (st: Status)
      requires Valid() && uid in users
      modifies this
      ensures Valid()
      ensures !p.Given? ==> st == BadRequest
      ensures p.Given? && p.id !in old(users[uid].projects) ==> st == Forbidden
      ensures p.Given? && p.id in old(users[uid].projects) && !bodyOk ==> st == ServerError
      ensures p.Given? && p.id in old(users[uid].projects) && bodyOk && p.id !in old(projects) ==> st == NotFound
      ensures (p.Given? && p.id in old(users[uid].projects) && bodyOk && p.id in old(projects)
               && |old(projects[p.id].columns)| >= columnLimit) ==> st == TooManyRequests
      ensures st != Ok ==> unchanged(this)
      ensures st == Ok <==>
        p.Given? && p.id in old(users[uid].projects) && bodyOk && p.id in old(projects)
        && |old(projects[p.id].columns)| < columnLimit
      ensures st == Ok ==>
        var n := old(nextId);
        && n !in old(columns)
        && columns == old(columns)[n := Column(title, p.id, [])]
        && projects == old(projects)[p.id := old(projects[p.id]).(columns := old(projects[p.id].columns) + [n])]
        && users == old(users) && tasks == old(tasks) && nextId == n + 1
    {
      if !p.Given? {
        return BadRequest;
      }
      var pid := p.id;
      if pid !in users[uid].projects {
        return Forbidden;
      }
      if !bodyOk {
        return ServerError;
      }
      if pid !in projects {
        return NotFound;
      }
      if |projects[pid].columns| >= columnLimit {
        return TooManyRequests;
      }
      var cid := SaveColumn(title, pid);
      projects := projects[pid := projects[pid].(columns := projects[pid].columns + [cid])];
      st := Ok;
    }

    /** PUT /columns: set the fields of a column the access check lets through (here its title). */
    method UpdateColumn(uid: Id, c: Param, bodyOk: bool, title: string) returns (st: Status)
      requires Valid() && uid in users
      modifies this
      ensures Valid()
      ensures !c.Given? ==> st == BadRequest
      ensures c.Given? && !bodyOk ==> st == ServerError
      ensures c.Given? && bodyOk && !AccessAsCoded(old(users[uid].projects), old(projects), old(columns), c.id) ==>
        st == Forbidden
      ensures st != Ok ==> unchanged(this)
      ensures st == Ok <==>
        c.Given? && bodyOk && AccessAsCoded(old(users[uid].projects), old(projects), old(columns), c.id)
      ensures st == Ok ==>
        && columns == old(columns)[c.id := old(columns[c.id]).(title := title)]
        && users == old(users) && projects == old(projects) && tasks == old(tasks) && nextId == old(nextId)
    {
      if !c.Given? {
        return BadRequest;
      }
      var cid := c.id;
      if !bodyOk {
        return ServerError;
      }
      var accessible := ColumnAccessible(uid, cid);
      if !accessible {
        return Forbidden;
      }
      columns := columns[cid := columns[cid].(title := title)];
      st := Ok;
    }

    /**
      DELETE /columns: delete the column's tasks, then the column, then pull
      its id from the project named in the query (not from the column's own
      `projectId`). `removedMeanwhile` says whether another request removed
      the column record between the read of its tasks and its `deleteOne`.
     */
    method DeleteColumn(uid: Id, c: Param, p: Param, removedMeanwhile: bool) returns (st: Status)
      requires Valid() && uid in users
      modifies this
      ensures Valid()
      ensures !c.Given? || !p.Given? ==> st == BadRequest && unchanged(this)
      ensures c.Given? && p.Given? && p.id !in old(users[uid].projects) ==> st == Forbidden && unchanged(this)
      ensures c.Given? && p.Given? && p.id in old(users[uid].projects)
              && !AccessAsCoded(old(users[uid].projects), old(projects), old(columns), c.id) ==>
        st == Forbidden && unchanged(this)
      ensures c.Given? && p.Given? && p.id in old(users[uid].projects)
              && AccessAsCoded(old(users[uid].projects), old(projects), old(columns), c.id) ==>
        && tasks == old(tasks) - Elems(old(columns[c.id].tasks))
        && columns == old(columns) - {c.id}
        && users == old(users) && nextId == old(nextId)
        && (removedMeanwhile ==> st == ServerError && projects == old(projects))
        && (!removedMeanwhile && p.id in old(projects) ==>
              st == Ok && projects == old(projects)[p.id := old(projects[p.id]).(columns := Pull(old(projects[p.id].columns), c.id))])
        && (!removedMeanwhile && p.id !in old(projects) ==> st == Ok && projects == old(projects))
      ensures st == Ok ==> forall q :: q in projects && q != p.id ==> projects[q] == old(projects[q])
    {
      if !c.Given? || !p.Given? {
        return BadRequest;
      }
      var cid, pid := c.id, p.id;
      if pid !in users[uid].projects {
        return Forbidden;
      }
      var accessible := ColumnAccessible(uid, cid);
      if !accessible {
        return Forbidden;
      }
      // The access check saw the column, so `Column.findById` finds it.
      DeleteTasks(columns[cid].tasks);
      if removedMeanwhile {
        columns := columns - {cid};
      }
      var deletedCount := if cid in columns then 1 else 0;
      columns := columns - {cid};
      if deletedCount > 0 {
        if pid in projects {
          projects := projects[pid := projects[pid].(columns := Pull(projects[pid].columns, cid))];
        }
        st := Ok;
      } else {
        st := ServerError;
      }
    }

    /** GET /columns: one column the access check lets through. */
    method GetColumn(uid: Id, c: Param) returns (st: Status)
      requires uid in users
      ensures !c.Given? ==> st == BadRequest
      ensures c.Given? ==> (st == Ok <==> AccessAsCoded(users[uid].projects, projects, columns, c.id))
      ensures c.Given? && st != Ok ==> st == Forbidden
    {
      if !c.Given? {
        return BadRequest;
      }
      var accessible := ColumnAccessible(uid, c.id);
      if !accessible {
        return Forbidden;
      }
      // The access check saw the column, so its 404 branch is never taken.
      st := Ok;
    }

    /** POST /tasks: validate the body, then create the task at the end of an accessible column. */
    method CreateTask(uid: Id, c: Param, body: Body) returns (st: Status)
      requires Valid() && uid in users
      modifies this
      ensures Valid()
      ensures !c.Given? ==> st == BadRequest
      ensures c.Given? && !TaskValid(body) ==> st == ServerError
      ensures c.Given? && TaskValid(body) && !AccessAsCoded(old(users[uid].projects), old(projects), old(columns), c.id) ==>
        st == Forbidden
      ensures st != Ok ==> unchanged(this)
      ensures st == Ok <==>
        c.Given? && TaskValid(body) && AccessAsCoded(old(users[uid].projects), old(projects), old(columns), c.id)
      ensures st == Ok ==>
        var n := old(nextId);
        && n !in old(tasks)
        && tasks == old(tasks)[n := Task(body, [])]
        && columns == old(columns)[c.id := old(columns[c.id]).(tasks := old(columns[c.id].tasks) + [n])]
        && users == old(users) && projects == old(projects) && nextId == n + 1
    {
      if !c.Given? {
        return BadRequest;
      }
      var cid := c.id;
      if !TaskValid(body) {
        return ServerError;  // `await task.joiValidate(req.body)` rejects
      }
      var accessible := ColumnAccessible(uid, cid);
      if !accessible {
        return Forbidden;
      }
      var tid := SaveTask(Task(body, []));
      columns := columns[cid := columns[cid].(tasks := columns[cid].tasks + [tid])];
      st := Ok;
    }

    /** DELETE /tasks: delete a task listed in an accessible column, then pull it from that column. */
    method DeleteTask(uid: Id, t: Param, c: Param) returns (st: Status)
      requires Valid() && uid in users
      modifies this
      ensures Valid()
      ensures !t.Given? || !c.Given? ==> st == BadRequest
      ensures t.Given? && c.Given? && !AccessAsCoded(old(users[uid].projects), old(projects), old(columns), c.id) ==>
        st == Forbidden
      ensures (t.Given? && c.Given? && AccessAsCoded(old(users[uid].projects), old(projects), old(columns), c.id)
               && t.id !in old(columns[c.id].tasks)) ==> st == Forbidden
      ensures (t.Given? && c.Given? && AccessAsCoded(old(users[uid].projects), old(projects), old(columns), c.id)
               && t.id in old(columns[c.id].tasks) && t.id !in old(tasks)) ==> st == ServerError
      ensures st != Ok ==> unchanged(this)
      ensures st == Ok <==>
        t.Given? && c.Given? && AccessAsCoded(old(users[uid].projects), old(projects), old(columns), c.id)
        && t.id in old(columns[c.id].tasks) && t.id in old(tasks)
      ensures st == Ok ==>
        && tasks == old(tasks) - {t.id}
        && columns == old(columns)[c.id := old(columns[c.id]).(tasks := Pull(old(columns[c.id].tasks), t.id))]
        && users == old(users) && projects == old(projects) && nextId == old(nextId)
    {
      if !t.Given? || !c.Given? {
        return BadRequest;
      }
      var tid, cid := t.id, c.id;
      var accessible := ColumnAccessible(uid, cid);
      if !accessible {
        return Forbidden;
      }
      if tid !in columns[cid].tasks {
        return Forbidden;
      }
      var deletedCount := 0;
      if tid in tasks {
        tasks := tasks - {tid};
        deletedCount := 1;
      }
      if deletedCount > 0 {
        columns := columns[cid := columns[cid].(tasks := Pull(columns[cid].tasks, tid))];
        st := Ok;
      } else {
        st := ServerError;
      }
    }

    /** POST /removeFromColumn: unlink a task listed in an accessible column; the task record stays. */
    method RemoveFromColumn(uid: Id, c: Param, t: Param) returns (st: Status)
      requires Valid() && uid in users
      modifies this
      ensures Valid()
      ensures !c.Given? || !t.Given? ==> st == BadRequest
      ensures c.Given? && t.Given? && !AccessAsCoded(old(users[uid].projects), old(projects), old(columns), c.id) ==>
        st == Forbidden
      ensures (c.Given? && t.Given? && AccessAsCoded(old(users[uid].projects), old(projects), old(columns), c.id)
               && t.id !in old(columns[c.id].tasks)) ==> st == Forbidden
      ensures st != Ok ==> unchanged(this)
      ensures st == Ok <==>
        c.Given? && t.Given? && AccessAsCoded(old(users[uid].projects), old(projects), old(columns), c.id)
        && t.id in old(columns[c.id].tasks)
      ensures st == Ok ==>
        && columns == old(columns)[c.id := old(columns[c.id]).(tasks := Pull(old(columns[c.id].tasks), t.id))]
        && t.id !in columns[c.id].tasks
        && users == old(users) && projects == old(projects) && tasks == old(tasks) && nextId == old(nextId)
    {
      if !c.Given? || !t.Given? {
        return BadRequest;
      }
      var cid, tid := c.id, t.id;
      var accessible := ColumnAccessible(uid, cid);
      if !accessible {
        return Forbidden;
      }
      if tid !in columns[cid].tasks {
        return Forbidden;
      }
      columns := columns[cid := columns[cid].(tasks := Pull(columns[cid].tasks, tid))];
      st := Ok;
    }

    /** POST /addToColumn: append a task id to an accessible column, unchecked. */
    method AddToColumn(uid: Id, c: Param, t: Param) returns (st: Status)
      requires Valid() && uid in users
      modifies this
      ensures Valid()
      ensures !c.Given? || !t.Given? ==> st == BadRequest
      ensures c.Given? && t.Given? && !AccessAsCoded(old(users[uid].projects), old(projects), old(columns), c.id) ==>
        st == Forbidden
      ensures st != Ok ==> unchanged(this)
      ensures st == Ok <==>
        c.Given? && t.Given? && AccessAsCoded(old(users[uid].projects), old(projects), old(columns), c.id)
      ensures st == Ok ==>
        && columns == old(columns)[c.id := old(columns[c.id]).(tasks := old(columns[c.id].tasks) + [t.id])]
        && users == old(users) && projects == old(projects) && tasks == old(tasks) && nextId == old(nextId)
    {
      if !c.Given? || !t.Given? {
        return BadRequest;
      }
      var cid, tid := c.id, t.id;
      var accessible := ColumnAccessible(uid, cid);
      if !accessible {
        return Forbidden;
      }
      columns := columns[cid := columns[cid].(tasks := columns[cid].tasks + [tid])];
      st := Ok;
    }

    /**
      POST /addUserInProject: invite the user with the given email into a
      project: its id goes to that user's `projects` (even when no such
      project exists) and the email to the project's collaborators.
     */
    method AddUserInProject(email: string, p: Param) returns (st: Status)
      requires Valid()
      modifies this
      ensures Valid()
      ensures !p.Given? ==> st == NoReply && unchanged(this)
      ensures p.Given? && (forall u :: u in old(users) ==> old(users)[u].email != email) ==>
        st == UserDoesNotExist && unchanged(this)
      ensures forall u :: p.Given? && u in old(users) && old(users)[u].email == email && p.id in old(users)[u].projects ==>
        st == AlreadyAssigned && unchanged(this)
      ensures forall u :: p.Given? && u in old(users) && old(users)[u].email == email && p.id !in old(users)[u].projects ==>
        && st == Ok
        && users == old(users)[u := old(users)[u].(projects := old(users)[u].projects + [p.id])]
        && projects == (if p.id in old(projects)
                        then old(projects)[p.id := old(projects)[p.id].(assignedUserInProject :=
                               old(projects)[p.id].assignedUserInProject + [email])]
                        else old(projects))
        && columns == old(columns) && tasks == old(tasks) && nextId == old(nextId)
    {
      if !p.Given? {
        return NoReply;  // `mongoose.Types.ObjectId(...)` throws
      }
      var pid := p.id;
      if !exists u :: u in users && users[u].email == email {
        return UserDoesNotExist;
      }
      var u :| u in users && users[u].email == email;
      if pid in users[u].projects {
        return AlreadyAssigned;
      }
      users := users[u := users[u].(projects := users[u].projects + [pid])];
      if pid in projects {
        projects := projects[pid := projects[pid].(assignedUserInProject := projects[pid].assignedUserInProject + [email])];
      }
      st := Ok;
    }

    /** POST /getAssignUserInProject: the emails invited into a project. */
    method GetAssignUserInProject(p: Param) returns (st: Status, emails: seq<string>)
      ensures !p.Given? || p.id !in projects ==> st == NoReply && emails == []
      ensures p.Given? && p.id in projects ==>
        && emails == projects[p.id].assignedUserInProject
        && (st == NoAssignedUsers <==> emails == [])
        && (st == Ok <==> emails != [])
    {
      if !p.Given? || p.id !in projects {
        return NoReply, [];  // a cast error, or `.assignedUserInProject` of null
      }
      emails := projects[p.id].assignedUserInProject;
      if |emails| == 0 {
        st := NoAssignedUsers;
      } else {
        st := Ok;
      }
    }

    /** POST /assignedUserInTask: assign someone to a task unless already listed. */
    method AssignUserInTask(t: Param, who: string) returns (st: Status)
      requires Valid()
      modifies this
      ensures Valid()
      ensures !t.Given? || t.id !in old(tasks) ==> st == NoReply && unchanged(this)
      ensures t.Given? && t.id in old(tasks) && who in old(tasks[t.id].assignUserInTask) ==>
        st == AlreadyAssigned && unchanged(this)
      ensures t.Given? && t.id in old(tasks) && who !in old(tasks[t.id].assignUserInTask) ==>
        && st == Ok
        && tasks == old(tasks)[t.id := old(tasks[t.id]).(assignUserInTask := old(tasks[t.id].assignUserInTask) + [who])]
        && users == old(users) && projects == old(projects) && columns == old(columns) && nextId == old(nextId)
    {
      if !t.Given? || t.id !in tasks {
        return NoReply;  // a cast error, or `.assignUserInTask` of null
      }
      var tid := t.id;
      var listed := tasks[tid].assignUserInTask;
      if |listed| < 1 || who !in listed {
        PushFresh(listed, who);
        tasks := tasks[tid := tasks[tid].(assignUserInTask := listed + [who])];
        st := Ok;
      } else {
        st := AlreadyAssigned;
      }
    }
  }
}
