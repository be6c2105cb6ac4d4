# Idea platform: vote ledger and authorization, in Dafny

A model of the core of a small idea-sharing web application (Express and
Mongoose). Users register and log in. Logged-in users submit ideas and toggle
their vote on any idea. Only an idea's author may edit or delete it.

The model covers:

- **ObjectIds** (`object_ids.dfy`): the 96-bit id and its 24-digit hexadecimal
  `toString()`. The digits read back give the id again, so two ids have the
  same string form exactly when they are equal.
- **The Idea schema** (`idea_model.dfy`): the stored record, the derived
  `voteCount`, the JSON view that includes it, and the `save` validation. The
  title, description, category and author are required. A new idea has no
  votes and takes `createdAt` from the clock. `IdeaStore` is the ideas
  collection, a map from id to record. Its invariant is that no idea lists a
  voter twice.
- **The vote toggle** (`vote_controller.dfy`): `votes` is a list, as in the
  code. `includes` decides the branch. `pull` removes every occurrence of the
  user and `push` appends one. The reply is the list's new length.
  `ToggleVote` is a method on the store and is proved against the function
  `Toggle`. The lemmas cover:
  - membership flips;
  - other voters keep their entries, their multiplicity and their order;
  - a list without duplicates keeps none;
  - two toggles restore membership and count;
  - after any number of toggles, the user's membership is flipped relative to
    the start exactly when the number is odd.
- **The middlewares** (`auth_middleware.dfy`, `author_middleware.dfy`):
  `isLoggedIn` and the author guard as functions that return a decision.
- **The routes** (`routes.dfy`): the guard chain of every idea and vote route.
  `Authorize` runs the chain in order. `Handle` runs a request through its
  chain and then the controller action.
- **The controllers** (`idea_controller.dfy`, `user_controller.dfy`): create,
  details, the edit page, update and delete on the store; register, login and
  logout on the user registry and the session.

Outside inputs are parameters:

- the id the driver generates for a new document (`newId`);
- the clock (`now`);
- the User model's password check (`checkPassword`).

The model follows the code, including where a vote ledger might be expected
to behave differently:

- Votes are a list, not a set. `pull` removes every occurrence of the user.
  Duplicates cannot arise through the toggle: `IdeaStore.Valid` rules them out
  and every action keeps it.
- A missing idea and a non-author get the same answer from the author guard:
  a forbidden outcome, with no separate not-found.
- The vote reply carries only the new count, not whether the user now votes.
- The controller passes the e-mail to `findOne` unchanged, and the model
  matches it exactly. The User schema, which is not part of this model, could
  normalise it.
- Update writes with `findByIdAndUpdate`, which skips the required-field
  checks, so it can empty a title. The vote toggle then saves the whole
  document, `save` re-checks those fields, and the vote fails with an error.
- Update and delete report success even when the id does not exist.

## Model

| member | source | states |
|---|---|---|
| `ObjectIds.HexRoundTrip` | middlewares/authorMiddleware.js:5 | reading back the hexadecimal digits of an id's string form gives the id |
| `ObjectIds.ToStringInjective` | middlewares/authorMiddleware.js:5 | two ids have equal `toString()` forms exactly when they are the same id, so the guard's string comparison compares values |
| `IdeaModel.Validate` | models/Idea.js:4-9 | a draft is saved exactly when title, description and category are non-empty and the author is not null; the saved idea keeps those fields, has an empty `votes` list and `createdAt` = now |
| `IdeaModel.ToJson` | models/Idea.js:10-17 | the object/JSON view carries every stored field unchanged, plus `voteCount`, equal to the length of its `votes` list |
| `VoteController.Pull` | controllers/VoteController.js:21 | `pull` leaves no occurrence of the user; every other id stays with its multiplicity; the length drops by the user's occurrences; a list without the user is unchanged |
| `VoteController.Toggle` | controllers/VoteController.js:19-24 | membership of the user flips; other voters' multiplicities are unchanged; an absent user is appended once at the end (length + 1); a present user loses all occurrences |
| `VoteController.ToggleOnlyChangesVoter` | controllers/VoteController.js:19-24 | with the toggling user taken out, the list after a toggle equals the list before, in the same order |
| `VoteController.ToggleKeepsNoDuplicates` | controllers/VoteController.js:19-24 | a `votes` list without duplicates has none after a toggle |
| `VoteController.ToggleTwiceAbsent` | controllers/VoteController.js:19-24 | two toggles by a user who had not voted give back exactly the original list |
| `VoteController.ToggleTwicePresent` | controllers/VoteController.js:19-24 | two toggles by a user who occurred once restore membership and length, the user's entry moving to the end |
| `VoteController.ToggleTwiceRestores` | controllers/VoteController.js:19-24 | on a list without duplicates, as every stored idea keeps, two toggles by any user restore that user's membership and the count |
| `VoteController.TogglesParity` | controllers/VoteController.js:19-24 | after an even number of toggles the user's membership is as before, after an odd number it is flipped |
| `VoteController.ToggleVote` | controllers/VoteController.js:6-41 | a missing idea gives not-found and changes nothing; an idea whose title, description or category is empty fails `save` with an error and changes nothing; otherwise only that idea's `votes` change, to `Toggle` of the old list, and the reply is the new `voteCount`; the no-duplicates invariant is kept |
| `AuthMiddleware.IsLoggedIn` | middlewares/authMiddleware.js:2-8 | the request passes exactly when the session has a user; otherwise it is refused as unauthenticated |
| `AuthorMiddleware.IsAuthor` | middlewares/authorMiddleware.js:3-10 | the request passes exactly when the idea exists and its `authorId` equals the session user's id; a missing idea and a non-author both get the same forbidden answer |
| `Routes.Guards` | routes/ideaRoutes.js:7-13 | every author guard comes after a login guard in its chain |
| `Routes.RunGuard` | middlewares/authorMiddleware.js:4-9 | the login guard allows exactly when there is a session user; the author guard refuses a missing idea as forbidden before reading the user, throws (an error) for an existing idea when there is no session user, and otherwise allows exactly the author |
| `Routes.Authorize` | routes/ideaRoutes.js:7-13 | list and details are public; create page, create and vote need exactly a session user; edit page, update and delete need a session user who is the author; anonymous refusals are unauthenticated and others forbidden, so the author guard never runs without a session user |
| `Routes.AnonymousCannotMutate` | routes/voteRoutes.js:6 | an anonymous create, update, delete or vote request is refused as unauthenticated |
| `Routes.NonAuthorIndistinguishableFromMissing` | routes/ideaRoutes.js:11-13 | for edit page, update and delete, a non-author gets the same answer as for a missing idea |
| `Routes.AnyUserMayVote` | routes/voteRoutes.js:6 | voting has no ownership check: every logged-in user, the author included, passes |
| `Routes.EditPageFindsIdea` | routes/ideaRoutes.js:11 | when the edit page's guards let a request through, its lookup finds the idea |
| `Routes.Handle` | routes/ideaRoutes.js:7-13 | a refused request gets its guard's failure and leaves the store unchanged; read-only requests never change the store; an allowed vote gives not-found for a missing idea, an error for an idea that fails `save`'s required-field check, and otherwise toggles the session user on the idea named by the path |
| `IdeaController.Details` | controllers/IdeaController.js:62-81 | not-found exactly when no idea has the id; otherwise that idea |
| `IdeaController.EditPage` | controllers/IdeaController.js:84-91 | the lookup yields the idea when it exists and nothing otherwise, with no not-found branch |
| `IdeaController.Create` | controllers/IdeaController.js:33-59 | without a session user the result is an error; the save succeeds exactly when the author is set, the fields are non-empty and the id is unused; a success stores exactly one new idea authored by the session user with no votes, so `details` then finds it; a failure stores nothing |
| `IdeaController.Update` | controllers/IdeaController.js:93-112 | only title, description and category are replaced; author, votes and `createdAt` are kept; a missing id changes nothing and still succeeds |
| `IdeaController.Delete` | controllers/IdeaController.js:115-133 | the idea is removed and every other idea is untouched; `details` then gives not-found; success is reported either way |
| `UserController.FindByEmail` | controllers/UserController.js:12 | finds a user exactly when one has that e-mail, and the one found has it |
| `UserController.Register` | controllers/UserController.js:9-28 | a known e-mail is refused and nothing is added; otherwise exactly one user with the given name, e-mail and password is appended, unless its id is taken; e-mails stay unique |
| `UserController.Login` | controllers/UserController.js:35-46 | succeeds exactly when a user has that e-mail and the password check passes; then the session holds the user `findOne` returned, the one whose password was checked; otherwise the session is unchanged |
| `UserController.Logout` | controllers/UserController.js:49-51 | the session is emptied, so `isLoggedIn` refuses the next request |

## Left out

- Concurrency: each request is one atomic step. The race between `findById`
  and `save` in the vote toggle is not modelled. Nor is the race between the
  e-mail check and `save` in registration.
- Presentation: JSON or HTML replies, rendering, flash texts, redirects and
  status codes collapse into an outcome kind (`Outcomes.Failure`).
- Listing: `list` returns every stored idea. Its `sort({ votes: -1 })` orders
  by array contents in MongoDB, not by count, and that order is not modelled.
- Database failures: catch blocks are reached only through the modelled causes:
  - a failed validation on create;
  - a failed validation when the vote toggle saves an idea that an update left
    with an empty required field;
  - an `_id` already in use on insert.
  Connection errors and timeouts are not modelled.
- Request bodies always carry the three idea fields as strings. A JSON body
  with a field missing is not modelled. On update, Mongoose's handling of
  `undefined` keys would matter.
- Path ids are ObjectIds. A malformed `:id`, which makes Mongoose's cast throw,
  is not modelled.
- The User schema is not part of this model:
  - password hashing;
  - any normalisation of e-mails, such as `lowercase: true`, which would apply
    both to the stored e-mail and to the `findOne({ email })` query;
  - its validation;
  - `checkPassword`, which is a parameter of `Login`.
- The session keeps the whole user record, as `login` stores it. Session
  serialization, expiry and cookies are configuration.
- `populate('authorId')` only loads the author for display. It is not modelled.
- Render-only actions (`registerPage`, `loginPage`) are not modelled. The
  create page is the `CreateForm` reply of `Routes.Handle`. The profile route
  names a controller action that does not exist.
- Routes.Handle: its contract gives the new store explicitly only for refused
  requests, read-only requests and votes. For create, update and delete it
  relies on the contracts of `IdeaController.Create`, `Update` and `Delete`.
