# To-do list server: task store, query engine and user registry

This project models the logic of a small to-do list backend written for Node.js with Express. Only the parts that decide something are modelled:

- the task payload rules (`validateTaskPayload`);
- the list query: ownership, then exact status and priority filters, a case-insensitive search over title or description, and an optional stable sort;
- create, update and delete over the in-memory task collection;
- the email lookup and append logic of register and login.

Request bodies are JSON, so every user-supplied field is a `Json.Value`. That value can be `undefined`, `null`, a boolean, a number, a string or an object. The JavaScript rules the handlers rely on are written out: truthiness, `||`, `??`, `===`, and the TypeError a string method throws on a non-string.

Modules:

- `Outcomes`: `Option`, the handlers' errors (400, 404, 500) and `Result`.
- `Json`: the values and the operators above.
- `Strings`: ASCII lower-casing, `includes`, `trim` and the decimal form of a number.
- `Sorting`: order-preserving subsequences, and the stable sort `Array.prototype.sort` performs with a key-difference comparator. The sort exists as a function and as an in-place method on an array.
- `Validation`: `validateTaskPayload`.
- `Tasks`: the task record, the record built by create, the overlay applied by update, and the lookup and removal used by update and delete.
- `Query`: filters, search, comparator and sort key, and the specification of a list request.
- `Store`: the `TaskStore` class and the four task handlers as its methods.
- `Users`: the `UserRegistry` class with register and login.

The class invariant `TaskStore.Valid()` says that every stored task passes `validateTaskPayload`. Every handler keeps it.

Where the documented design and the code differ, the model follows the code:

- The design says a stored priority and status are always drawn from their enumerations. In the code, validation only checks a truthy value. An update with `priority: ''` (or `false`, or `0`) is stored as given, because `??` only replaces `null` and `undefined`. Create turns the same `''` into `Medium`. `Tasks.EmptyPriorityQuirk` states this.
- The design says delete removes "it". The code removes every task with that id owned by the caller.
- The design describes a default sort, descending by creation time. The server sorts only when `sortBy` is non-empty; that default is the client's choice of query parameters.
- A task created with a truthy non-string description, such as `5`, is stored as it is. A later search that does not match the title calls `toLowerCase` on that value, which throws. The list request then fails with an internal error, and the model returns `InternalError` in that case.

## Model

| member | source | states |
|---|---|---|
| `Strings.LowerEqualIff` | server/server.js:108-109 | two strings lower-case to the same string exactly when they differ only in the case of their letters, which is what makes the search case-insensitive |
| `Strings.LowerIdempotent` | server/server.js:108-109 | lower-casing an already lower-cased string changes nothing |
| `Strings.IncludesIff` | server/server.js:109 | `includes` holds exactly when the needle occurs at some position of the haystack |
| `Strings.Trim` | server/server.js:29 | `trim()` is empty exactly when every character is ECMAScript white space or a line terminator |
| `Strings.DecimalString` | server/server.js:132 | `now.toString()` is a non-empty run of decimal digits with no leading zero, and read back as a number it is `now` |
| `Validation.ValidateTaskPayload` | server/server.js:27-33 | no error exactly when the title is a non-blank string, the priority is falsy or Low/Medium/High, and the status is falsy or Pending/In Progress/Completed; otherwise the message of the first failing rule, in the order title, priority, status |
| `Tasks.NewTask` | server/server.js:129-141 | the created task passes validation, is owned by the caller, has id `now.toString()` and both timestamps `now`; falsy fields default to `''`, `null`, `Medium` and `Pending`, truthy ones are kept |
| `Tasks.Overlay` | server/server.js:150-157 | the updated task passes validation; each field takes the supplied value unless it is null or absent; `updatedAt` is `now`; id, owner and creation time are unchanged |
| `Tasks.EmptyPriorityQuirk` | server/server.js:30-31 | an update with priority `''` passes validation and stores `''`, while create turns `''` into `Medium` |
| `Tasks.FirstMatch` | server/server.js:148-149 | finds nothing exactly when no task has both the id and the caller as owner; otherwise the index of the first such task |
| `Tasks.Without` | server/server.js:165 | the remainder holds exactly the tasks that are not addressed, as an order-preserving subsequence of the collection |
| `Tasks.WithoutCounts` | server/server.js:165 | the remainder keeps every copy of a task that is not addressed and no copy of an addressed one |
| `Tasks.WithoutKeepsLength` | server/server.js:164-166 | the remainder is as long as the collection exactly when no task has that id and the caller as owner |
| `Query.Keep` | server/server.js:103-106 | a filter keeps exactly the tasks meeting every criterion, as an order-preserving subsequence |
| `Query.KeepCounts` | server/server.js:103-106 | a filter keeps every copy of a task meeting the criteria and no copy of any other |
| `Query.KeepThenKeep` | server/server.js:105-106 | filtering again by one more criterion equals filtering once by all of them (AND) |
| `Query.MatchesMeaning` | server/server.js:107-110 | the search keeps a task exactly when the lower-cased query occurs in the lower-cased title or in the lower-cased description, a missing description reading as `''`; it throws exactly when the title does not contain the query and the description is a truthy non-string |
| `Query.Search` | server/server.js:109 | the search fails exactly when its callback throws on some task; otherwise it keeps exactly the matching tasks, in order |
| `Query.SearchCounts` | server/server.js:109 | a search that does not throw keeps every copy of a matching task and no copy of any other |
| `Query.Rank` | server/server.js:116-117 | the priority rank lies between 0 and 3 and is 0 exactly for a value that is not Low, Medium or High |
| `Query.RankOrder` | server/server.js:116-117 | an unknown priority ranks below Low, Low below Medium, Medium below High |
| `Query.CompareIsKeyDifference` | server/server.js:112-120 | the comparator equals the difference of the two sort keys, with `dir` folded into the key; an unknown `sortBy` gives 0 |
| `Query.SelectionMembers` | server/server.js:101-110 | the filtered list is an order-preserving subsequence of the collection; a task is in it exactly when it belongs to the caller and meets every non-empty filter |
| `Query.SelectionFails` | server/server.js:107-110 | a list request fails exactly when there is a search and its callback throws on a task that passed the other filters |
| `Query.ArrangePermutes` | server/server.js:111-122 | the sort step keeps the length and is a permutation of the filtered list |
| `Query.ArrangeOrdered` | server/server.js:111-121 | with a `sortBy`, the comparator never answers a positive number for an earlier task against a later one |
| `Query.ArrangeStable` | server/server.js:113-121 | tasks with equal sort keys keep their filtered order, in either direction |
| `Query.ArrangeUnchanged` | server/server.js:111-121 | with no `sortBy`, or one that is not dueDate, priority or createdAt, the order is unchanged |
| `Query.UnfilteredListing` | server/server.js:101-106 | with no filter, search or sort, the answer is exactly the caller's tasks in stored order |
| `Query.PrioritySortOrder` | server/server.js:112-118 | sorting by priority orders ranks ascending, and descending exactly when `sortDir` is `desc` |
| `Sorting.SortByPermutes` | server/server.js:113 | the sort's output is a permutation of its input |
| `Sorting.SortBySorted` | server/server.js:113 | the sort's output is ordered by key |
| `Sorting.SortByStable` | server/server.js:113 | for every key, the elements with that key keep their input order |
| `Sorting.SortByConstant` | server/server.js:120 | when every key is equal, as with a comparator that always returns 0, the order is unchanged |
| `Sorting.SortInPlace` | server/server.js:113 | sorting the array in place leaves exactly the stable sort of its old contents |
| `Store.TaskStore.constructor` | server/server.js:21-24 | a collection that does not exist yet reads as empty |
| `Store.TaskStore.List` | server/server.js:101-124 | narrowing step by step and sorting in place returns exactly the specified listing: the filtered selection, sorted when `sortBy` is given |
| `Store.TaskStore.Create` | server/server.js:126-144 | an invalid body returns the validation message and leaves the store unchanged; a valid one appends exactly one new task at the end and changes no earlier task; the invariant is kept |
| `Store.TaskStore.Update` | server/server.js:146-160 | not found exactly when no task has the id and the caller as owner; an invalid merged title, priority or status returns its message and changes nothing; otherwise only the first such task is replaced by its overlay |
| `Store.TaskStore.Delete` | server/server.js:162-169 | not found exactly when no task has the id and the caller as owner, and then nothing changes; otherwise the store is the old one without those tasks, the rest in their order |
| `Store.StoredRankZeroIsFalsy` | server/server.js:30 | in a store whose tasks all passed validation, the priority sort key is 0 exactly for a falsy priority |
| `Store.DeleteSparesOthers` | server/server.js:165 | a delete leaves every other user's task list exactly as it was |
| `Store.DeletedNotListed` | server/server.js:162-169 | after a delete, no list the caller asks for contains a task with that id |
| `Store.CreatedIsListed` | server/server.js:142 | a created task appears last in its owner's unfiltered, unsorted list |
| `Users.FindByEmail` | server/server.js:70 | finds nothing exactly when no user's email is `===` to the given one; otherwise the first such user |
| `Users.UserRegistry.constructor` | server/server.js:21-24 | a registry that does not exist yet reads as empty |
| `Users.UserRegistry.Register` | server/server.js:66-77 | a falsy email or password is refused, as is an email already present, and nothing changes; a password that is not a string makes hashing fail and nothing changes; otherwise exactly one user is appended, with id `now.toString()` and the hash; emails stay unique |
| `Users.UserRegistry.Login` | server/server.js:79-90 | a falsy email or password is refused; an unknown email and a wrong password both answer `Invalid credentials`; a non-string password for a known email makes the comparison fail; success exactly when the password is a non-empty string matching the hash of the first user with that email, answering with that user's claims |
| `Users.LoginAfterRegister` | server/server.js:66-90 | logging in after a successful registration with the same string password succeeds with the claims that registration issued |

## Left out

- Express routing, middleware, CORS, the JSON body parser and response serialisation: framework plumbing. The handlers' status codes are kept as the `Error` constructors.
- `read` and `write` over files and `JSON.parse`: file I/O. Each collection is a field of a class. The model does not capture that an unreadable or corrupt file reads as empty.
- The `auth` middleware, JWT signing and verification, cookies, logout, `/api/me` and `/api/ping`: foreign library calls and plumbing. The principal reaches every task handler as the `caller` id.
- bcrypt: a foreign library. `Register` receives the hash it stores as `hashed`. `Login` receives the comparison of a string with a hash as `matches`. Both library calls reject a password that is not a string; the model answers `InternalError` there. The server's `async` handler does not catch that rejection, so what the client then sees depends on the framework and is not modelled.
- `Date.now()`: a clock. It is the parameter `now`. Ids derived from it may collide; the code makes no promise about that.
- `Query.BaseKey`: the due-date key is the parameter `dateValue`, which stands for `+new Date(v)` applied to `dueDate || 0`. Date parsing is not modelled. An invalid date gives `NaN`, which makes the comparator inconsistent; that case is not modelled.
- `Strings.Lower`: lower-cases ASCII letters only, not the full Unicode mapping of `toLowerCase`.
- `Json.Value`: numbers are integers. Fractions and `NaN` are not modelled.
- Query parameters are single strings. A repeated parameter, which Express turns into an array, is not modelled.
- `Query.Rank`: a priority is looked up among Low, Medium and High only. A key inherited from `Object.prototype` is not modelled. No stored priority can be such a key, because validation admits only these three names or a falsy value; `Store.StoredRankZeroIsFalsy` states this for every task of a valid store.
- Concurrent requests and the lost-update race between their read-modify-write windows: concurrency is outside the model.
- The client pages: React UI and fetch calls with no logic of their own.
