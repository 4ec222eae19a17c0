/**
  The documents of the board store (users, projects, columns, tasks) as
  routes/user.js reads and writes them, the request parameters that name
  them and the abstract outcome of a handler.
 */
module Records {
  import opened TaskSchema

  /** A document identity (a MongoDB ObjectId). */
  type Id = nat

  /**
    An id taken from a request: missing (absent or empty, falsy in the
    handler), present but refused by `ObjectId.isValid`, or a well-formed id.
   */
  datatype Param = Absent | Malformed | Given(id: Id)

  /**
    What a handler answers: an HTTP status, one of the named messages the
    collaborator handlers send with status 200 and `status: false`, or no
    answer at all (those handlers only log a caught exception).
   */
  datatype Status =
    | Ok               // 200, status: true
    | BadRequest       // 400
    | Forbidden        // 403
    | NotFound         // 404
    | TooManyRequests  // 429, a creation quota is reached
    | ServerError      // 500, a thrown error or a zero deletedCount
    | AlreadyAssigned  // "User Already assigned in this project" / "... in this task"
    | UserDoesNotExist // "User Doesn't exist"
    | NoAssignedUsers  // "unavailable user's in this project"
    | NoReply          // the exception is logged and the request is left unanswered

  /** A user: its email and the ordered ids of the projects it belongs to. */
  datatype User = User(email: string, projects: seq<Id>)

  /** A project: its ordered columns and the emails of its invited collaborators. */
  datatype Project = Project(title: string, columns: seq<Id>, assignedUserInProject: seq<string>)

  /** A column: its owning project (set at creation) and its ordered tasks. */
  datatype Column = Column(title: string, projectId: Id, tasks: seq<Id>)

  /** A task: the body it was created from and the users assigned to it. */
  datatype Task = Task(fields: Body, assignUserInTask: seq<string>)

  /** The titles of the three columns every new project starts with. */
  const TodoTitle: string := "To-Do"
  const InProgressTitle: string := "In Progress"
  const DoneTitle: string := "Done"

  /** The task put into a new project's To-Do column (its `expireAt` is a clock read, left out). */
  const ExampleTask: Task :=
    Task(map["title" := Str("Example Task"), "label" := Str("feature"), "labelType" := Str("info")], [])

  /** The JavaScript lengths of the example task's title and label. */
  lemma ExampleTitleLength()
    ensures Utf16Length("Example Task") == 12
  {
    assert "Example Task"[1..] == "xample Task";
    Utf16LengthBmp("Example Task");
  }

  lemma ExampleLabelLength()
    ensures Utf16Length("feature") == 7
  {
    Utf16LengthBmp("feature");
  }

  /** The example task is a body the task validator accepts. */
  lemma ExampleTaskValid()
    ensures TaskValid(ExampleTask.fields)
    ensures ExampleTask.assignUserInTask == []
  {
    ExampleTitleLength();
    ExampleLabelLength();
    TitleLabelBody("Example Task", "feature", ValidatorLabelTypes[4]);
  }
}
