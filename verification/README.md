# Kanban board store

A model of the board API of routes/user.js and of the task validator of
models/Task.js. The API keeps four kinds of documents:
- users, each with an email and an ordered list of project ids;
- projects, each with an ordered list of column ids and a list of invited emails;
- columns, each with its owning project id and an ordered list of task ids;
- tasks, each with the body they were created from and a list of assignees.

The model has these parts.
- `TaskSchema` (task_schema.dfy) models the `joiValidate` schema of a task. It
  is a predicate over a JSON body: required title of length 3 to 60,
  optional label of length 3 to 15, `labelType` one of six values, optional
  other keys, unknown keys refused. Lengths are JavaScript lengths (UTF-16
  code units), as Joi compares them: a character above U+FFFF counts twice. It also models the persisted schema's
  `required`/`enum` validators and proves that the two agree.
- `Records` (records.dfy) holds the documents, the request parameter
  (`Absent`, `Malformed`, or a well-formed id) and the handler outcomes.
- `StoreOps` (store_ops.dfy) holds the store's `$pull` (remove every equal
  element) and its properties. `$push` is sequence append.
- `Access` (access.dfy) is the column-access flag as coded. The handlers
  reassign `isColumnAccessibleByUser` once per loaded project, so only the
  last present project of the user decides. The module proves this, proves
  that the flag never grants more than the containment rule "some project
  of the user lists the column", and exhibits a user with two projects for whom the
  two differ.
- `Cascade` (cascade.dfy) holds what a project delete removes (the tasks
  reached through its columns) and the fan-out `$pull` of the project id
  from every user.
- `Routes` (routes.dfy) is the store: a class `BoardStore` with the four
  tables as map fields, one method per handler and an id counter standing
  for ObjectId generation. Each handler returns its status and states its
  whole effect on the tables. The loops of the source are kept as loops:
  - the access flag loop;
  - the `forEach` over a project's columns;
  - the `forEach` over a column's tasks.

Behaviour kept as the source has it:
- DELETE /projects and DELETE /columns delete the children before they
  look at `deletedCount`. A zero count gives 500 with the children already
  gone and no parent reference scrubbed. With the handlers run one after
  another, the count can only be zero if another request removed the record
  between the handler's read and its delete. The `removedMeanwhile`
  parameter stands for that.
- DELETE /columns pulls the column id from the project named in the query,
  not from the column's own `projectId`.
- POST /addToColumn appends the task id without checking that the task
  exists or is already listed.
- POST /addUserInProject adds the project id to the user even when no such
  project exists.

Behaviour where the model follows the code:
- DELETE /projects on a listed project whose record is missing answers 500,
  not 404: the handler reads the `columns` of a null result and the thrown
  error lands in the catch-all.
- `populate` drops references to missing documents. The access flag
  therefore looks at the present projects and their present columns only.
  After an access check has let a column through, the column exists, so the
  "column not found" branches of GET /columns, DELETE /columns and
  DELETE /tasks are unreachable. They are not modelled as separate branches.
- The Task model's schema declares no `assignUserInTask` path. The handler
  of POST /assignedUserInTask reads and pushes that list all the same, and
  the model gives every task that list (see "## Left out" for what this
  changes).
- The store's consistency invariant (`Routes.Consistent`) assumes that a
  user's email identifies the user, as the lookup by email in
  /addUserInProject expects. The User model is not part of this model.

Nothing here is executed; the Dafny verifier checks every contract.

## Model

| member | source | states |
|---|---|---|
| TaskSchema.TaskValid | models/Task.js:27-52 | the `joiValidate` schema; an accepted body has a title and only declared keys |
| TaskSchema.PersistedValid | models/Task.js:5-22 | the persisted schema's `required` title and `enum` labelType; a body passing them has a title |
| TaskSchema.Utf16LengthBounds | models/Task.js:29 | the JavaScript length Joi compares is at least the number of characters and at most twice it |
| TaskSchema.Utf16LengthBmp | models/Task.js:29 | without characters above U+FFFF the JavaScript length is the number of characters |
| TaskSchema.AstralCharsCountTwice | models/Task.js:29 | two characters above U+FFFF have JavaScript length 4, so they make an accepted title |
| TaskSchema.TitleLabelBody | models/Task.js:28-50 | a body of a title, a label and a label type within their bounds is accepted |
| TaskSchema.TitleOnlyBody | models/Task.js:28-50 | a body holding only a title is accepted exactly when the title's JavaScript length is 3 to 60 |
| TaskSchema.TitleRequired | models/Task.js:29 | a body without a title is refused |
| TaskSchema.TitleBounds | models/Task.js:29 | an accepted body has a string title of JavaScript length 3 to 60 |
| TaskSchema.LabelBounds | models/Task.js:41-49 | in an accepted body a present label has JavaScript length 3 to 15 and a present labelType is one of the six listed values |
| TaskSchema.OptionalKeysDroppable | models/Task.js:30-49 | every key but title is optional: removing it from an accepted body keeps the body accepted |
| TaskSchema.UnknownKeyRefused | models/Task.js:28-50 | a key the schema does not declare makes the body refused |
| TaskSchema.LabelTypeListsAgree | models/Task.js:18-49 | the persisted enum and the validator's list hold the same six label types |
| TaskSchema.ValidatedIsPersistable | models/Task.js:5-49 | every body the validator accepts passes the persisted schema's `required` title and `enum` labelType |
| Records.ExampleTaskValid | routes/user.js:51-56 | the example task of a new project is a body the task validator accepts, with no assignees |
| StoreOps.Pull | routes/user.js:154-158 | `$pull` keeps exactly the elements different from the argument, and shortens the list when the argument occurs |
| StoreOps.PullAbsent | routes/user.js:161-173 | pulling an id a list does not hold leaves the list as it was |
| StoreOps.PullTwice | routes/user.js:154-173 | pulling the same id twice is pulling it once |
| StoreOps.PullAppend | routes/user.js:671-675 | `$pull` works element by element: it distributes over concatenation |
| StoreOps.PushFresh | routes/user.js:893-904 | appending a value a duplicate-free list does not hold keeps it duplicate-free |
| Access.Live | routes/user.js:110-119 | the loaded projects are exactly the listed ones that exist, no more of them than listed |
| Access.AccessAsCoded | routes/user.js:335-340 | the flag is only ever true for an existing column of a user with at least one project |
| Access.AccessIsLastLive | routes/user.js:335-340 | the flag holds exactly when the last present project lists the column and the column exists |
| Access.AccessIsLastListed | routes/user.js:335-340 | when every listed project exists, the flag holds exactly when the user has a project, the last one lists the column and the column exists |
| Access.NoProjectsNoAccess | routes/user.js:335 | a user without projects can access no column |
| Access.AccessSound | routes/user.js:335-341 | whenever the flag holds, some present project of the user lists the present column |
| Access.AccessSingleProject | routes/user.js:335-340 | with exactly one present project the flag and the rule "some project lists the column" agree |
| Access.EarlierProjectColumnRefused | routes/user.js:335-340 | a column of the first of two projects is refused although that project lists it |
| Access.AccessIgnoresColumnContents | routes/user.js:333-340 | the flag depends on which columns exist, not on their tasks or titles |
| Cascade.TasksOf | routes/user.js:142-149 | the tasks a project delete reaches are exactly those listed by an existing column of its list |
| Cascade.TasksOfSnoc | routes/user.js:142-149 | walking one more column adds that column's tasks when it exists, and nothing otherwise |
| Cascade.ListedColumnTasksIncluded | routes/user.js:142-149 | every existing listed column's tasks are among the reached tasks, so a column listed twice adds nothing the second time |
| Cascade.ScrubAll | routes/user.js:161-173 | `updateMany` with `$pull` keeps every user and email, removes the project id from every list and keeps every other id |
| Cascade.RequesterPullSubsumed | routes/user.js:154-173 | pulling from the requester first and then from everyone equals pulling from everyone |
| Cascade.ScrubLeavesOthers | routes/user.js:161-173 | a user that did not list the project is left exactly as it was |
| Routes.ProvisionKeepsConsistent | routes/user.js:24-61 | the documents a project creation adds keep ids below the counter, emails unique and assignee lists duplicate-free |
| Routes.BoardStore.SaveColumn | routes/user.js:293 | saving a column stores it under a fresh id with its project and no tasks, and changes nothing else |
| Routes.BoardStore.SaveTask | routes/user.js:535 | saving a task stores it under a fresh id and changes nothing else |
| Routes.BoardStore.ColumnAccessible | routes/user.js:329-340 | the flag loop computes the as-coded access of the user's list for the column |
| Routes.BoardStore.DeleteTasks | routes/user.js:145-147 | deleting a column's tasks removes exactly the listed task ids from the task table |
| Routes.BoardStore.DeleteColumns | routes/user.js:142-149 | the cascade removes exactly the listed columns and exactly the tasks those columns listed |
| Routes.BoardStore.ProvisionProject | routes/user.js:24-61 | the requester gets the new project last; the project gets To-Do, In Progress and Done in that order, each pointing back at it; To-Do holds the one example task; nothing else changes |
| Routes.BoardStore.CreateProject | routes/user.js:14-69 | a refused body gives 500 and the quota reached gives 429, both with nothing changed; otherwise 200 with fresh ids and the provisioned documents; the store stays consistent |
| Routes.BoardStore.GetProjects | routes/user.js:72-124 | no id gives the user's present projects in order; malformed gives 400, unlisted 403, listed but absent 404, else that project |
| Routes.BoardStore.DeleteProject | routes/user.js:127-204 | 400, 403 and 500 (absent project) with nothing changed; otherwise the project, its columns and their tasks go; on success no user lists the project; on a zero count 500 with no user scrubbed |
| Routes.BoardStore.UpdateProject | routes/user.js:207-264 | 400, 403, 500 when validation fails, 404 when absent, all with nothing changed; 200 exactly when listed, valid and present, changing only that project's title |
| Routes.BoardStore.CreateColumn | routes/user.js:267-318 | 400, 403, 500, 404 and 429 at the quota, all with nothing changed; otherwise exactly one new column, appended to that project's list |
| Routes.BoardStore.UpdateColumn | routes/user.js:321-371 | 400, 500 when validation fails, 403 unless the flag holds, all with nothing changed; otherwise only that column's title changes |
| Routes.BoardStore.DeleteColumn | routes/user.js:374-465 | 400 and both 403s with nothing changed; otherwise the column and its tasks go, then the column id is pulled from the query's project only, or nothing on a zero count (500) |
| Routes.BoardStore.GetColumn | routes/user.js:468-514 | 400 without an id; 200 exactly when the flag holds, 403 otherwise |
| Routes.BoardStore.CreateTask | routes/user.js:517-559 | 400, 500 when the validator refuses, 403 unless the flag holds, all with nothing changed; otherwise one new task appended to the column |
| Routes.BoardStore.DeleteTask | routes/user.js:562-642 | 400, 403 unless the flag holds, 403 unless the column lists the task, 500 when the task record is gone, all with nothing changed; otherwise the task goes and is pulled from the column |
| Routes.BoardStore.RemoveFromColumn | routes/user.js:645-707 | 400 on a missing id, 403 unless the flag holds, 403 when the column does not list the task, all with nothing changed; otherwise only that column changes, losing every occurrence of the task id, and the task record stays |
| Routes.BoardStore.AddToColumn | routes/user.js:710-758 | 200 exactly when the flag holds, appending the task id to that column even when it is already listed or no such task exists |
| Routes.BoardStore.AddUserInProject | routes/user.js:822-859 | unknown email or an already listed id: nothing changes; otherwise the id goes to that user and the email to the project, if it exists |
| Routes.BoardStore.GetAssignUserInProject | routes/user.js:865-883 | the invited emails of an existing project, with the "no users" answer exactly when there are none |
| Routes.BoardStore.AssignUserInTask | routes/user.js:889-918 | an assignee not yet listed is appended, one already listed gives "already assigned" with nothing changed; assignee lists stay duplicate-free |

## Left out

- File upload (routes/user.js:760-816): disk storage, a random file name and MIME filtering are I/O and randomness.
- Express plumbing, the `isLoggedIn` middleware and the response bodies: only the status and the kind of message are modelled.
- `mongoose.Types.ObjectId.isValid` is folded into the request parameter (`Malformed`), not modelled as a predicate on ids.
- The Joi validation of projects and columns: those model files are not part of this model, so it is a boolean parameter `bodyOk`.
- Routes.BoardStore.UpdateProject: `$set: req.body` is modelled as setting the title only; other fields of the body are not modelled. The handler calls `joiValidate()` without an argument (routes/user.js:218), so what it validates is not the request body; `bodyOk` stands for the outcome of that validation.
- Routes.BoardStore.UpdateColumn: `$set: req.body` is modelled as setting the title only; other fields of the body are not modelled. The handler calls `joiValidate()` without an argument (routes/user.js:328), so what it validates is not the request body; `bodyOk` stands for the outcome of that validation.
- The `icon` of the default columns and the column fields other than title, project and tasks.
- The shape of the populated answers: GET handlers return ids, not nested documents.
- Concurrency: the un-awaited `forEach(async ...)` deletes, the fire-and-forget `updateMany` and the un-awaited `user.save()` complete in program order; the only interleaving kept is the `removedMeanwhile` case of a zero `deletedCount`.
- `upsert: true` on an update of a missing document (a user, project or column) is a no-op; document creation through upsert is not modelled.
- Timestamps, `expireAt: new Date()` of the example task and the error objects returned with 500.
- The values of `PROJECT_COUNT_PER_USER` and `COLUMN_COUNT_PER_PROJECT`: the limits are constructor parameters.
- TaskSchema.TaskValid: `Joi.date()` accepts any number or non-empty string; date parsing is not modelled, and JSON numbers are integers.
- Routes.BoardStore.AddUserInProject: a missing `currentProjectId` answers nothing with no change; the source instead mints a fresh ObjectId, and what the later project update does with it depends on Mongoose casting, which is not modelled. The email is taken to be given.
- Routes.BoardStore.AssignUserInTask: the model assumes each stored task carries the `assignUserInTask` list the handler reads. Under the Task schema shown, which declares no such path, `task.assignUserInTask` is undefined, reading its `length` throws, and the handler only logs the error and never answers.
- Routes.BoardStore.GetAssignUserInProject and Routes.BoardStore.AssignUserInTask: a malformed or missing id answers nothing, standing for the cast error or null dereference that the handler only logs.
