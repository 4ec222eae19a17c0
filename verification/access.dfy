/**
  The access checks of routes/user.js, on the store's tables as values.

  Project access is plain membership of the project id in the user's
  `projects`. Column access is the flag `isColumnAccessibleByUser`: the
  handler loads the user's projects with their columns populated, then
  reassigns the flag once per loaded project, so only the last one decides.
  `populate` drops references whose document is missing, so "loaded"
  means "listed and present", both for the projects and for their columns.
 */
module Access {
  import opened Records
  import opened StoreOps

  /** What `populate` returns for a list of project ids: the present ones, in list order. */
  function Live(ps: seq<Id>, projects: map<Id, Project>): (r: seq<Id>)
    ensures forall p :: p in r <==> p in ps && p in projects
    ensures |r| <= |ps|
  {
    if ps == [] then []
    else Live(ps[..|ps| - 1], projects) + (if ps[|ps| - 1] in projects then [ps[|ps| - 1]] else [])
  }

  /** The flag after the `forEach`: each present project overwrites it with "my columns list cid". */
  function AccessAsCoded(ps: seq<Id>, projects: map<Id, Project>, columns: map<Id, Column>, cid: Id): (r: bool)
    ensures r ==> cid in columns && |ps| > 0
  {
    if ps == [] then false
    else if ps[|ps| - 1] in projects then cid in projects[ps[|ps| - 1]].columns && cid in columns
    else AccessAsCoded(ps[..|ps| - 1], projects, columns, cid)
  }

  /** The containment rule: some present project of the user lists the present column. */
  ghost predicate ColumnReachable(ps: seq<Id>, projects: map<Id, Project>, columns: map<Id, Column>, cid: Id) {
    exists p :: p in ps && p in projects && cid in projects[p].columns && cid in columns
  }

  /** The flag is decided by the last present project alone, and is false when none is present. */
  lemma {:induction false} AccessIsLastLive(ps: seq<Id>, projects: map<Id, Project>, columns: map<Id, Column>, cid: Id)
    ensures var live := Live(ps, projects);
      AccessAsCoded(ps, projects, columns, cid) <==>
        |live| > 0 && cid in projects[live[|live| - 1]].columns && cid in columns
  {
    if ps != [] && ps[|ps| - 1] !in projects {
      AccessIsLastLive(ps[..|ps| - 1], projects, columns, cid);
      assert Live(ps, projects) == Live(ps[..|ps| - 1], projects);
    }
  }

  /**
    When every listed project is present, access holds exactly when the
    user has a project, the last one lists the column, and the column exists.
   */
  lemma {:induction false} AccessIsLastListed(ps: seq<Id>, projects: map<Id, Project>, columns: map<Id, Column>, cid: Id)
    requires forall p :: p in ps ==> p in projects
    ensures AccessAsCoded(ps, projects, columns, cid) <==>
      |ps| > 0 && cid in projects[ps[|ps| - 1]].columns && cid in columns
  {
    if ps != [] {
      assert ps[|ps| - 1] in ps;
    }
  }

  /** A user with no projects can access no column. */
  lemma NoProjectsNoAccess(projects: map<Id, Project>, columns: map<Id, Column>, cid: Id)
    ensures !AccessAsCoded([], projects, columns, cid)
  {
  }

  /** Access as coded grants nothing the containment rule would refuse. */
  lemma {:induction false} AccessSound(ps: seq<Id>, projects: map<Id, Project>, columns: map<Id, Column>, cid: Id)
    requires AccessAsCoded(ps, projects, columns, cid)
    ensures ColumnReachable(ps, projects, columns, cid)
  {
    var last := ps[|ps| - 1];
    if last in projects {
      assert last in ps;
    } else {
      AccessSound(ps[..|ps| - 1], projects, columns, cid);
      var p :| p in ps[..|ps| - 1] && p in projects && cid in projects[p].columns && cid in columns;
      assert p in ps;
    }
  }

  /** With a single present project, access as coded and the containment rule agree. */
  lemma {:induction false} AccessSingleProject(ps: seq<Id>, projects: map<Id, Project>, columns: map<Id, Column>, cid: Id)
    requires |Live(ps, projects)| == 1
    ensures AccessAsCoded(ps, projects, columns, cid) <==> ColumnReachable(ps, projects, columns, cid)
  {
    AccessIsLastLive(ps, projects, columns, cid);
    var live := Live(ps, projects);
    if ColumnReachable(ps, projects, columns, cid) {
      var p :| p in ps && p in projects && cid in projects[p].columns && cid in columns;
      assert p in live;
      assert p == live[0];
    }
  }

  /**
    The two disagree as soon as the user has two projects: a column of the
    first is refused while the second is the last one listed.
   */
  lemma EarlierProjectColumnRefused()
    ensures var projects := map[1 := Project("A", [10], []), 2 := Project("B", [], [])];
      var columns := map[10 := Column("To-Do", 1, [])];
      ColumnReachable([1, 2], projects, columns, 10) && !AccessAsCoded([1, 2], projects, columns, 10)
  {
    var projects := map[1 := Project("A", [10], []), 2 := Project("B", [], [])];
    var columns := map[10 := Column("To-Do", 1, [])];
    assert [1, 2][..1] == [1];
    assert 1 in [1, 2] && 10 in projects[1].columns;
  }

  /** Access looks only at which columns exist, not at their contents. */
  lemma {:induction false} AccessIgnoresColumnContents(ps: seq<Id>, projects: map<Id, Project>,
                                                       columns: map<Id, Column>, columns': map<Id, Column>, cid: Id)
    requires columns.Keys == columns'.Keys
    ensures AccessAsCoded(ps, projects, columns, cid) == AccessAsCoded(ps, projects, columns', cid)
  {
    if ps != [] && ps[|ps| - 1] !in projects {
      AccessIgnoresColumnContents(ps[..|ps| - 1], projects, columns, columns', cid);
    }
  }
}
