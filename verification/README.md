# cinelog in Dafny

cinelog is a movie-logging application: an Express/Mongoose server that keeps users,
reviews, custom movie lists and a watchlist, and an Angular client that browses the movie
database (TMDB), keeps the session, and shows the home, discover, lists, movie-details and
review screens. This project models the server's handlers, schemas and middleware, and the
client's services and screen logic, and proves properties of them.

How the model is built:

- **Documents and collections.** Documents are datatypes. A collection is a class holding a
  `seq` of documents in insertion order, with an invariant `Valid()`. Ids are natural numbers
  that grow with every insertion, so `sort({ createdAt: -1 })` is taken to be the reverse of the
  filtered collection (`Query.NewestFirst`).
- **Handlers.** Every request handler is a pure function from the collection and the request
  to an `Outcome`: the document it returns, creates or changes, or the error it throws. A
  handler's own errors carry an HTTP status. An error raised by the store (schema
  validation, cast failure, duplicate key) carries none, so the error handler answers 500
  (`ErrorHandler.HandleError`). The collection classes apply the changing handlers, and a
  `*KeepsValid` lemma shows that each one preserves the invariant.
- **External code.** Password hashing, token signing and token verification are
  parameters. So are the clock (`now`) and the `NODE_ENV` variable.
- **Client components.** The client's components and services are classes whose methods
  change their fields as the source does. A method that sends a request returns what it
  would send, and a separate method takes the answer (the data, or `None` for an error).
- **JavaScript semantics** live in module `Js` and are written out explicitly:
  - truthiness, `||` defaults and `trim`;
  - `split` and `startsWith`;
  - `parseInt`, which reads leading white space, a sign and the longest digit prefix, and
    gives `None` for NaN; without a radix, a "0x" or "0X" after the sign switches to
    hexadecimal digits;
  - `toString`.

## Model

| member | source | states |
|---|---|---|
| ErrorHandler.HandleError | server/src/middleware/errorHandler.ts:7-24 | status is the error's status when truthy, else 500; message is the error's, else 'Internal Server Error'; `success` is false; the stack is sent only when NODE_ENV is 'development' |
| ErrorHandler.AsyncHandler | server/src/middleware/errorHandler.ts:26-30 | a handler that settles normally responds with its value; one that throws reaches the error handler with that error |
| ErrorHandler.ThrownStatusReachesClient | server/src/middleware/errorHandler.ts:13 | a handler's own non-zero status reaches the client unchanged; a store error becomes a 500 |
| AuthMiddleware.BearerToken | server/src/middleware/auth.ts:13-15 | a token is read only from a present header starting with "Bearer"; it is the second space-separated piece and contains no space; a header with a space always yields one |
| AuthMiddleware.Protect | server/src/middleware/auth.ts:9-35 | the request passes exactly when the token is non-empty and verifies, and then carries the verified claims; every failure is the same 401 |
| AuthMiddleware.BearerTokenOfHeader | server/src/middleware/auth.ts:13-15 | a header built as "Bearer " + token gives the token back |
| AuthMiddleware.ProtectAcceptsVerifiedBearer | server/src/middleware/auth.ts:23-29 | a well-formed header passes iff its token verifies |
| AuthMiddleware.ProtectRejectsMissingToken | server/src/middleware/auth.ts:17-21 | no header, a bare "Bearer" and an empty second piece are each refused with 401 |
| UserModel.ValidEmailShape | server/src/models/User.ts:26 | every address the e-mail pattern accepts has exactly one '@' and ends in a word character |
| UserModel.EmailAccepted | server/src/models/User.ts:26 | "a@x.com" matches the pattern |
| UserModel.EmailWithoutLabelRejected | server/src/models/User.ts:26 | "a@x" does not match: the domain needs a dotted label of 2-3 characters |
| UserModel.EmailFromIff | server/src/models/User.ts:26 | the scan for the '@' accepts exactly when some '@' splits the address into a segment and a domain |
| UserModel.DomainFromIff | server/src/models/User.ts:26 | the scan of the domain accepts exactly when some position splits it into a segment and the dotted labels |
| UserModel.NewUser | server/src/models/User.ts:14-37 | the stored user has its username trimmed, its e-mail lower-cased and an empty watchlist |
| UserModel.ValidateUser | server/src/models/User.ts:14-33 | validation passes iff the schema's required, minlength and match rules hold; a failure is a store error |
| UserModel.ProfileOf | server/src/models/User.ts:28-33 | the profile returned by `findById` has every field except the password |
| AuthController.PublicOf | server/src/controllers/authController.ts:58-62 | the user object of an auth response is the id, username and e-mail |
| AuthController.TokenFor | server/src/controllers/authController.ts:48-52 | the token signs `{ id, email }` with a seven-day lifetime |
| AuthController.Registration | server/src/controllers/authController.ts:11-45 | 400 for a missing field; 400 when the confirmation differs; 409 when the e-mail or username is taken; past those checks, success exactly when the new user (hashed password, trimmed name, lower-cased e-mail) passes the schema, and otherwise a store error without status |
| AuthController.Registered201 | server/src/controllers/authController.ts:54-63 | a registration answers 201 with the public user and its token |
| AuthController.Login | server/src/controllers/authController.ts:67-112 | 400 for a missing field; 401 for an unknown e-mail or a wrong password, with the same message; on a unique-e-mail store, success exactly for the stored user whose hash matches, answered 200 |
| AuthController.GetProfile | server/src/controllers/authController.ts:114-128 | the caller's profile when the caller exists, else 404 |
| AuthController.UserStore.Register | server/src/controllers/authController.ts:11-65 | inserts the registered user on success and nothing otherwise, answering 201 with the user and its token; keeps the store's invariant and the validity of every stored user |
| AuthController.RegistrationKeepsValid | server/src/controllers/authController.ts:29-45 | a successful registration keeps ids increasing and usernames and e-mails unique |
| AuthController.AppendUserKeepsValid | server/src/models/User.ts:14-26 | appending a normalised user with the next id and an unused username and e-mail keeps ids increasing and both fields unique |
| AuthController.RegistrationKeepsAllValid | server/src/controllers/authController.ts:29-45 | whatever the outcome of a registration, the store afterwards keeps its invariant and holds only users that pass the schema validators |
| AuthController.AllUsersValidIff | server/src/models/User.ts:14-33 | the recursive statement of validity says that every stored user passes the validators |
| AuthController.AppendKeepsAllValid | server/src/models/User.ts:14-33 | appending a user that passes the validators keeps every stored user valid |
| AuthController.LoginAfterRegistration | server/src/controllers/authController.ts:67-99 | after registering, logging in with the same password and the e-mail in any letter case succeeds and yields that user |
| AuthController.LoginFinds | server/src/controllers/authController.ts:78-99 | with unique e-mails, the stored e-mail and matching password log in as that stored user |
| AuthController.SecondRegistrationConflicts | server/src/controllers/authController.ts:29-34 | registering a taken e-mail (any case) or username (any surrounding space) again is a 409 |
| AuthController.ShortPasswordAccepted | server/src/models/User.ts:28-32 | the minimum password length is checked on the stored hash, so a three-character password is accepted |
| AuthController.RegistrationStoresHash | server/src/controllers/authController.ts:37-44 | the stored password is the hash of the submitted one |
| ListModel.FindList | server/src/controllers/listController.ts:108 | `findById` finds the list with that id, or reports that none has it |
| ListModel.ReplaceById | server/src/controllers/listController.ts:136 | saving replaces exactly the list with the same id and keeps the rest |
| ListModel.ReplaceKeepsValid | server/src/models/List.ts:19-49 | replacing a list by a valid version whose (owner, name) is free keeps the collection's invariant |
| ListController.CreatedList | server/src/controllers/listController.ts:7-32 | 400 without a name; otherwise a new list owned by the caller with the trimmed name, or a store error when the schema or the unique index refuses it |
| ListController.GetUserLists | server/src/controllers/listController.ts:34-64 | 400 without a caller; a page that is not a positive number is a store error; otherwise the window of ten at offset (page-1)*10 of the caller's lists newest first, with pagination { total, page, 10, ceil(total/10) } |
| Query.PageParamOfPage | server/src/controllers/listController.ts:37 | `parseInt` of a page number written out reads that number back |
| Query.PageParamDefault | server/src/controllers/listController.ts:37 | a missing or empty page query is page 1 |
| Query.Skip | server/src/controllers/listController.ts:39 | the offset is (page-1)*limit; a NaN page, or a page below 1 with a non-zero limit, is a store error without status |
| Query.Window | server/src/controllers/listController.ts:50-51 | `skip(n).limit(m)`: the elements from offset n on, at most m of them, in order |
| Query.PageCount | server/src/controllers/listController.ts:60 | `Math.ceil(total / limit)`: the least page count whose pages hold every item |
| Query.PageOfItem | server/src/controllers/listController.ts:39-60 | the item at position i is on page i/limit+1, which is within the page count, at its place in that page's window |
| Query.FilterOrder | server/src/controllers/reviewController.ts:53 | `find(filter)` is the collection read at the matching positions, in increasing order, with none missed |
| Query.FilterSubMultiset | server/src/controllers/reviewController.ts:53 | a filter returns only stored documents, no more often than stored |
| Query.NewestFirstSorted | server/src/controllers/listController.ts:48-49 | `find(filter).sort({createdAt: -1})` of an increasing store is strictly decreasing, holds only matches and misses none |
| ListController.UserListsNewestFirst | server/src/controllers/listController.ts:48-51 | the page is in strictly decreasing creation order |
| ListController.UserListsPage | server/src/controllers/listController.ts:37-61 | asking for page p (p >= 1, written as its number) succeeds with the p-th window of ten of the caller's lists, newest first, and announces the page count |
| ListController.EveryListOnSomePage | server/src/controllers/listController.ts:47-61 | every list of the caller appears on some announced page |
| ListController.GetListById | server/src/controllers/listController.ts:66-93 | 404 for an unknown id; a private list is shown only to its owner, others get 403 |
| ListController.Owned | server/src/controllers/listController.ts:102-120 | 404 for an unknown list, then 403 unless the caller owns it |
| ListController.WithMovie | server/src/controllers/listController.ts:95-144 | 400 for a falsy movie id or title; 404/403; 400 when the movie is already in the list; else the list with the movie appended |
| ListController.CastId | server/src/models/List.ts:35 | the schema's `Number` cast keeps a numeric id and reads a string of decimal digits as its value |
| ListController.AppendAsWritten | server/src/controllers/listController.ts:122-134 | as written: an id strictly equal to a stored one is refused with 400; otherwise the movie is appended with the cast id |
| ListController.StringIdDuplicates | server/src/controllers/listController.ts:123 | as written, a movie already in the list sent again with its id as a string is appended a second time, and the movies are no longer distinct |
| ListController.AppendIntended | server/src/controllers/listController.ts:122-134 | as intended, the id is cast before the check: the same answer as written for a numeric id, and the movies stay distinct for any id |
| ListController.AppendKeepsDistinct | server/src/controllers/listController.ts:123-134 | appending an absent movie keeps the movies distinct |
| ListController.WithoutMovie | server/src/controllers/listController.ts:146-175 | 404/403; else the list with every entry of that movie id dropped and the other entries kept in their order (the filter of its movies); other fields unchanged; a NaN id drops nothing |
| ListController.RemoveKeepsDistinct | server/src/controllers/listController.ts:165 | removal keeps the movies distinct |
| ListController.RemoveAbsentIsNoOp | server/src/controllers/listController.ts:165 | removing an absent movie, or by an id that is not a number, leaves the list as it was |
| ListController.RemoveUndoesAdd | server/src/controllers/listController.ts:123-165 | adding a movie and removing it by its printed id gives back the old movies |
| ListController.UpdatedList | server/src/controllers/listController.ts:177-209 | 404/403; then a truthy name, a present description and a present visibility replace the old ones; the result must pass validation |
| ListController.CreateKeepsValid | server/src/controllers/listController.ts:18-24 | creating keeps ids increasing and (owner, name) unique |
| ListController.AppendKeepsValid | server/src/models/List.ts:19-49 | appending a valid list with the next id and a free (owner, name) keeps the invariant |
| ListController.AddKeepsValid | server/src/controllers/listController.ts:130-134 | adding a movie keeps the invariant |
| ListController.RemoveKeepsValid | server/src/controllers/listController.ts:165-170 | removing a movie keeps the invariant |
| ListController.UpdateKeepsValid | server/src/controllers/listController.ts:197-199 | updating keeps the invariant |
| ListController.DeleteKeepsValid | server/src/controllers/listController.ts:211-237 | whatever the outcome of a delete (404, 403 or success), the collection keeps its invariant |
| ListController.FilterKeepsValid | server/src/controllers/listController.ts:230 | dropping the list with an id keeps the invariant |
| ListController.NameStaysFree | server/src/models/List.ts:49 | a list that keeps its owner and name does not collide with the unique index |
| ListController.ListStore.CreateList | server/src/controllers/listController.ts:7-32 | appends the created list on success, otherwise changes nothing; keeps `Valid()` |
| ListController.ListStore.AddMovieToList | server/src/controllers/listController.ts:95-144 | saves the changed list in place on success; keeps `Valid()` |
| ListController.ListStore.RemoveMovieFromList | server/src/controllers/listController.ts:146-175 | saves the filtered list in place on success; keeps `Valid()` |
| ListController.ListStore.UpdateList | server/src/controllers/listController.ts:177-209 | saves the updated list in place on success; keeps `Valid()` |
| ListController.ListStore.DeleteList | server/src/controllers/listController.ts:211-237 | removes the list after the 404 and 403 checks; keeps `Valid()` |
| ReviewModel.ValidateReview | server/src/models/Review.ts:17-46 | validation passes iff the title is present, the rating is within 1..5 and the content is at most 5000 characters; a failure is a store error |
| ReviewModel.FindReview | server/src/controllers/reviewController.ts:145 | `findById` finds the review with that id, or reports that none has it |
| ReviewModel.ReplaceReview | server/src/controllers/reviewController.ts:163 | saving replaces exactly the review with the same id |
| ReviewModel.ReplaceReviewKeepsValid | server/src/models/Review.ts:17-46 | replacing a review by a valid version keeps the invariant |
| ReviewController.OrDate | server/src/controllers/reviewController.ts:31 | `watchedDate \|\| Date.now()` |
| ReviewController.CreatedReview | server/src/controllers/reviewController.ts:7-40 | 400 when the movie id, title or rating is falsy; 400 for a rating outside 1..5; otherwise a valid review by the caller dated by the given date or now, or a store error |
| ReviewController.RatingGate | server/src/controllers/reviewController.ts:12-22 | exactly the ratings 1 to 5 get past the handler; 0 is a missing rating |
| ReviewController.GetReviewsByMovie | server/src/controllers/reviewController.ts:42-60 | 400 iff the movie id is not a number; otherwise the reviews of that movie in store order: the filter of the collection, so each matching review, in its relative order |
| ReviewController.ReviewAuthor | server/src/controllers/reviewController.ts:65 | the path's user id, else the caller |
| ReviewController.GetReviewsByUser | server/src/controllers/reviewController.ts:62-103 | 400 when no user is named; a page that is not a positive number is a store error; otherwise the window of ten at offset (page-1)*10 of that user's reviews newest first, with pagination { total, page, 10, ceil(total/10) } |
| ReviewController.ReviewsByUserNewestFirst | server/src/controllers/reviewController.ts:80-84 | the page is in strictly decreasing creation order |
| ReviewController.GetFeed | server/src/controllers/reviewController.ts:105-119 | all reviews newest first, cut to the limit (0 meaning no limit, a negative limit its absolute value); a limit that is not a number is a store error |
| ReviewController.FeedLimit | server/src/controllers/reviewController.ts:107 | a missing or empty limit query is 20; otherwise the query parsed as an integer (none for NaN) |
| ReviewController.FeedDefaultsToTwenty | server/src/controllers/reviewController.ts:107 | without a limit the feed is the twenty newest reviews |
| ReviewController.GetReviewById | server/src/controllers/reviewController.ts:121-138 | the review with that id, else 404 |
| ReviewController.Authored | server/src/controllers/reviewController.ts:147-157 | 404 for an unknown review, then 403 unless the caller wrote it |
| ReviewController.UpdatedReview | server/src/controllers/reviewController.ts:140-171 | 404/403; then each truthy field replaces the old one; the result must pass validation |
| ReviewController.UpdateFalsyKeepsReview | server/src/controllers/reviewController.ts:159-161 | an update whose fields are all falsy changes nothing |
| ReviewController.UpdateOutOfRangeIsStoreError | server/src/controllers/reviewController.ts:159-163 | the handler does not range-check a new rating: one outside 1..5 is refused by the store, as a 500 |
| ReviewController.CreateReviewKeepsValid | server/src/controllers/reviewController.ts:24-32 | creating keeps the collection's invariant |
| ReviewController.DeleteReviewKeepsValid | server/src/controllers/reviewController.ts:191 | deleting keeps the invariant |
| ReviewController.ReviewStore.CreateReview | server/src/controllers/reviewController.ts:7-40 | appends the review on success; keeps `Valid()` |
| ReviewController.ReviewStore.UpdateReview | server/src/controllers/reviewController.ts:140-171 | saves the changed review in place; keeps `Valid()` |
| ReviewController.ReviewStore.DeleteReview | server/src/controllers/reviewController.ts:173-198 | removes the review after the 404 and 403 checks; keeps `Valid()` |
| WatchlistModel.FindEntry | server/src/routes/watchlistRoutes.ts:23-29 | `findOne({ user, tmdbId })` finds the caller's entry for the movie, or none when the movie is not on their list |
| WatchlistModel.FindEntryUnique | server/src/models/Watchlist.ts:38 | with the unique (user, movie) index, the entry found is the only one |
| WatchlistRoutes.Added | server/src/routes/watchlistRoutes.ts:9-44 | 401 without a caller; 400 without a movie id or title; 400 when the movie is already on the list; otherwise the entry stamped now |
| WatchlistRoutes.WatchPage | server/src/routes/watchlistRoutes.ts:50 | `parseInt(page) \|\| 1` with no radix: never 0; a missing, NaN or zero page is 1; otherwise the value read, in hexadecimal after "0x" |
| Js.ParseIntAuto | server/src/routes/watchlistRoutes.ts:50 | `parseInt` with no radix: as with radix 10 unless the body starts with "0x" or "0X"; then the hexadecimal digits after it, signed, and NaN when there are none |
| Js.ParseIntAutoOfIntToString | server/src/routes/watchlistRoutes.ts:50 | every integer written in decimal reads back as itself without a radix |
| Js.ParseIntAutoHex | server/src/routes/watchlistRoutes.ts:50 | "0x2" reads as 2 without a radix and as 0 with radix 10 |
| Js.ParseIntAutoBareMarker | server/src/routes/watchlistRoutes.ts:50 | "0x" alone is NaN |
| WatchlistRoutes.WatchPageOfPage | server/src/routes/watchlistRoutes.ts:50 | a non-zero page written in decimal is that page; "0x2" is page 2 |
| WatchlistRoutes.GetWatchlist | server/src/routes/watchlistRoutes.ts:47-81 | 401 without a caller; a page below 1 is a store error; otherwise the window of twenty at offset (page-1)*20 of the caller's entries latest first, with pagination { total, page, 20, ceil(total/20) } |
| WatchlistRoutes.WatchlistLatestFirst | server/src/routes/watchlistRoutes.ts:58-60 | the page is ordered by `addedAt`, latest first |
| WatchlistRoutes.Removed | server/src/routes/watchlistRoutes.ts:84-105 | 401; a movie id that is not a number is a cast error; 404 when not on the list; else the deleted entry |
| WatchlistRoutes.Checked | server/src/routes/watchlistRoutes.ts:108-125 | 401; cast error; otherwise whether the movie is on the caller's list |
| WatchlistRoutes.AddKeepsValid | server/src/models/Watchlist.ts:13-38 | an addition keeps the invariant when the clock does not go back |
| WatchlistRoutes.RemoveKeepsValid | server/src/routes/watchlistRoutes.ts:93-99 | a removal keeps the invariant |
| WatchlistRoutes.CheckAfterAdd | server/src/routes/watchlistRoutes.ts:23-40 | after an addition the check answers true and a second addition is refused |
| WatchlistRoutes.CheckAfterRemove | server/src/routes/watchlistRoutes.ts:93-121 | after a removal the check answers false and a second removal is a 404 |
| WatchlistRoutes.RemoveTakesOnlyThatEntry | server/src/routes/watchlistRoutes.ts:93-99 | a removal deletes exactly the caller's entry for that movie; every other entry stays |
| WatchlistRoutes.RemoveCount | server/src/routes/watchlistRoutes.ts:93 | removal drops exactly one entry |
| WatchlistRoutes.WatchlistStore.Add | server/src/routes/watchlistRoutes.ts:9-44 | saves the new entry on success; keeps `Valid()` |
| WatchlistRoutes.WatchlistStore.Remove | server/src/routes/watchlistRoutes.ts:84-105 | deletes the entry on success; keeps `Valid()` |
| PageNav.Next | client/cinelog-app/src/app/components/discover/discover.ts:252-257 | moves on one page only while below the last |
| PageNav.Previous | client/cinelog-app/src/app/components/discover/discover.ts:259-264 | moves back one page only while above the first |
| PageNav.StepsStayInRange | client/cinelog-app/src/app/components/lists/lists.ts:364-376 | stepping never leaves 1..pages |
| PageNav.NextThenPrevious | client/cinelog-app/src/app/components/home/home.ts:578-602 | a step forward that moved is undone by a step back |
| PageNav.NextTimesReaches | client/cinelog-app/src/app/components/discover/discover.ts:252-257 | pressing next repeatedly climbs one page at a time and stops at the last page (the discover page, and the home page's trending and discover tabs; not its search tab) |
| ToastService.TimerFor | client/cinelog-app/src/app/services/toast.service.ts:31-33 | a removal timer is started iff the duration is positive |
| ToastService.RemoveUnknownIsNoOp | client/cinelog-app/src/app/services/toast.service.ts:52-55 | removing an id that is not queued changes nothing |
| ToastService.RemoveUndoesShow | client/cinelog-app/src/app/services/toast.service.ts:20-55 | removing the toast just shown gives back the queue as it was |
| ToastService.RemoveKeepsValid | client/cinelog-app/src/app/services/toast.service.ts:52-55 | removal keeps the ids increasing |
| ToastService.ToastQueue.constructor | client/cinelog-app/src/app/services/toast.service.ts:16 | the queue starts empty and the first id is 1 |
| ToastService.ToastQueue.Show | client/cinelog-app/src/app/services/toast.service.ts:20-34 | the toast takes the next id, goes to the end of the queue, and gets a timer iff its duration is positive |
| ToastService.ToastQueue.Succeed | client/cinelog-app/src/app/services/toast.service.ts:36-38 | a success toast for three seconds by default |
| ToastService.ToastQueue.Fail | client/cinelog-app/src/app/services/toast.service.ts:40-42 | an error toast for four seconds by default |
| ToastService.ToastQueue.Inform | client/cinelog-app/src/app/services/toast.service.ts:44-46 | an info toast for three seconds by default |
| ToastService.ToastQueue.Warn | client/cinelog-app/src/app/services/toast.service.ts:48-50 | a warning toast for three seconds by default |
| ToastService.ToastQueue.Remove | client/cinelog-app/src/app/services/toast.service.ts:52-55 | every toast with the id leaves; the rest keep their order |
| AuthService.Restore | client/cinelog-app/src/app/services/auth.ts:47-58 | the token is restored iff a non-empty one is stored; the user iff one is stored |
| AuthService.LoggedIn | client/cinelog-app/src/app/services/auth.ts:112-114 | logged in iff a non-empty token is held |
| AuthService.ReloadAfterSave | client/cinelog-app/src/app/services/auth.ts:47-95 | a saved session reloads as it was (an empty token is not restored) |
| AuthService.ReloadAfterLogout | client/cinelog-app/src/app/services/auth.ts:97-102 | after logout a reload finds nobody logged in |
| AuthService.Auth.constructor | client/cinelog-app/src/app/services/auth.ts:43-45 | the service starts from what storage holds |
| AuthService.Auth.LoadFromStorage | client/cinelog-app/src/app/services/auth.ts:47-58 | each of token and user is replaced only when storage holds one |
| AuthService.Auth.SetUserAndToken | client/cinelog-app/src/app/services/auth.ts:90-95 | storage and memory both hold the new user and token |
| AuthService.Auth.OnAuthResponse | client/cinelog-app/src/app/services/auth.ts:60-88 | only a successful login or registration answer is kept |
| AuthService.Auth.Logout | client/cinelog-app/src/app/services/auth.ts:97-102 | both keys leave storage and the session is forgotten |
| AuthService.Auth.IsLoggedIn | client/cinelog-app/src/app/services/auth.ts:112-114 | logged in iff the held token is non-empty |
| TmdbService.PosterUrl | client/cinelog-app/src/app/services/tmdb.ts:190-195 | the placeholder for a missing or empty path, else the image of that size (w342 by default) |
| TmdbService.BackdropUrl | client/cinelog-app/src/app/services/tmdb.ts:200-205 | the placeholder for a missing or empty path, else the image of that size (w780 by default) |
| TmdbService.ImageUrlInjective | client/cinelog-app/src/app/services/tmdb.ts:83 | two paths give the same image URL of a size only if they are equal |
| TmdbService.PlaceholdersAreNotImages | client/cinelog-app/src/app/services/tmdb.ts:190-205 | no image URL is mistaken for a placeholder |
| TmdbService.DiscoverQuery | client/cinelog-app/src/app/services/tmdb.ts:172-185 | the query carries the API key and every filter entry in text form, and no other key |
| Discover.Lookup | client/cinelog-app/src/app/components/discover/discover.ts:205-232 | reading a key of the filter object: absent iff no entry has it, otherwise an entry's value |
| Discover.YearSpan | client/cinelog-app/src/app/components/discover/discover.ts:216-227 | a year after 2015 gives the exact-year key; 2015, 2010 and 2000 give the spans 2015-01-01..2019-12-31, 2010-01-01..2014-12-31 and 2000-01-01..2009-12-31; any other year gives nothing |
| Discover.YearEntries | client/cinelog-app/src/app/components/discover/discover.ts:214-228 | an empty or non-numeric year choice adds nothing; otherwise the entries of the parsed year |
| Discover.YearFiltersExclusive | client/cinelog-app/src/app/components/discover/discover.ts:214-228 | a year choice sets either the exact year or both span ends, never a mix |
| Discover.YearSpanExclusive | client/cinelog-app/src/app/components/discover/discover.ts:216-227 | the entries of a parsed year set either the exact year or both span ends, never a mix |
| Discover.YearSpanKeys | client/cinelog-app/src/app/components/discover/discover.ts:216-227 | the entries of a parsed year have distinct keys, all release-date keys |
| Discover.DiscoverFilter | client/cinelog-app/src/app/components/discover/discover.ts:205-232 | the object starts with page and sort order, no key is set twice, and every key is page, sort order, genre, a year key or the minimum rating |
| Discover.GenreLookup | client/cinelog-app/src/app/components/discover/discover.ts:210-212 | `with_genres` is set iff a genre is chosen, to that genre |
| Discover.VoteLookup | client/cinelog-app/src/app/components/discover/discover.ts:230-232 | `vote_average.gte` is set iff a rating is chosen, to that rating |
| Discover.YearLookup | client/cinelog-app/src/app/components/discover/discover.ts:214-228 | the release-date keys are exactly those of the year choice |
| Discover.DiscoverPage.LoadMovies | client/cinelog-app/src/app/components/discover/discover.ts:200-233 | loading starts with the filter object of the current page and filters |
| Discover.DiscoverPage.OnMovies | client/cinelog-app/src/app/components/discover/discover.ts:237-248 | an answer replaces the movies and the page count; a failure keeps them; loading ends either way; the filters and the page are unchanged |
| Discover.DiscoverPage.ApplyFilters | client/cinelog-app/src/app/components/discover/discover.ts:195-198 | back to page 1, then load with the current filters; movies, page count and filters unchanged |
| Discover.DiscoverPage.NextPage | client/cinelog-app/src/app/components/discover/discover.ts:252-257 | moves on and loads iff below the last page; movies, page count and filters unchanged |
| Discover.DiscoverPage.PreviousPage | client/cinelog-app/src/app/components/discover/discover.ts:259-264 | moves back and loads iff above the first page; movies, page count and filters unchanged |
| ListsPage.Partition | client/cinelog-app/src/app/components/lists/lists.ts:235-242 | the count is the first "Watchlist" list's movie count (0 without one); the custom lists are the lists not named "Watchlist", in page order (the filter of the page); together the two parts account for every list |
| ListsPage.NoWatchlistKeepsAll | client/cinelog-app/src/app/components/lists/lists.ts:242 | on a page without a watchlist the custom lists are the whole page, in order |
| ListsPage.Lists.LoadLists | client/cinelog-app/src/app/components/lists/lists.ts:226-231 | loading clears the error and asks for the current page |
| ListsPage.Lists.OnListsLoaded | client/cinelog-app/src/app/components/lists/lists.ts:233-253 | an answer is partitioned and its pagination kept; a failure sets the load error |
| ListsPage.Lists.CreateNewList | client/cinelog-app/src/app/components/lists/lists.ts:257-274 | nothing is sent iff the name is all white space, and then the error is 'List name is required'; otherwise the form's fields are sent |
| ListsPage.Lists.OnCreated | client/cinelog-app/src/app/components/lists/lists.ts:275-283 | a success toast names the list; name, description and visibility are reset; the first page is loaded again |
| ListsPage.Lists.OnCreateFailed | client/cinelog-app/src/app/components/lists/lists.ts:285-290 | the server's message, else the default one, becomes the error and is shown as an error toast; creating ends; the form and the lists are unchanged |
| ListsPage.Lists.NextPage | client/cinelog-app/src/app/components/lists/lists.ts:364-369 | fails before pagination has loaded; otherwise moves on and loads iff below the last page, staying within 1..pages; loading starts and the error clears only with a load; lists, counts and form fields unchanged |
| ListsPage.Lists.PreviousPage | client/cinelog-app/src/app/components/lists/lists.ts:371-376 | moves back and loads iff above the first page; loading starts and the error clears only with a load; lists, counts and form fields unchanged |
| MovieDetails.TopCast | client/cinelog-app/src/app/components/movie-details/movie-details.ts:90 | the first ten cast members, in order |
| MovieDetails.Director | client/cinelog-app/src/app/components/movie-details/movie-details.ts:93-94 | the name of the first crew member whose job is Director, else "" |
| MovieDetails.WriterNames | client/cinelog-app/src/app/components/movie-details/movie-details.ts:97-99 | the names of the crew credited as Writer, Screenplay or Story, in crew order, one per credit |
| MovieDetails.Dedup | client/cinelog-app/src/app/components/movie-details/movie-details.ts:100 | each name once, and no name lost |
| MovieDetails.DedupKeepsFirstOrder | client/cinelog-app/src/app/components/movie-details/movie-details.ts:100 | names keep the order of their first occurrence |
| MovieDetails.Writers | client/cinelog-app/src/app/components/movie-details/movie-details.ts:97-100 | the first three (or fewer) of the distinct writer names in order of first credit; each a credited writer |
| MovieDetails.TrailerKey | client/cinelog-app/src/app/components/movie-details/movie-details.ts:103-108 | the first official YouTube trailer, else the first YouTube trailer or teaser; none iff there is no YouTube trailer or teaser |
| MovieDetails.TrailerFallsBackToFirstClip | client/cinelog-app/src/app/components/movie-details/movie-details.ts:105-107 | without an official trailer, the first YouTube trailer or teaser is taken |
| MovieDetails.Extract | client/cinelog-app/src/app/components/movie-details/movie-details.ts:86-111 | the parts are the top cast, the director, the writers and the trailer key; at most ten cast members and three writers; no trailer iff no YouTube clip |
| MovieDetails.ProfileImageUrl | client/cinelog-app/src/app/components/movie-details/movie-details.ts:126-130 | the w185 image, else the placeholder |
| MovieDetails.DetailsPosterUrl | client/cinelog-app/src/app/components/movie-details/movie-details.ts:132-136 | equals the service's w500 poster URL: the page's own null check adds nothing |
| MovieDetails.DetailsBackdropUrl | client/cinelog-app/src/app/components/movie-details/movie-details.ts:138-142 | equals the service's w1280 backdrop URL |
| MovieDetails.YouTubeEmbedUrl | client/cinelog-app/src/app/components/movie-details/movie-details.ts:122-124 | the embed URL holds the key right after the embed base |
| Home.Range | client/cinelog-app/src/app/components/home/home.ts:644-646 | the consecutive numbers from lo to hi |
| Home.PageWindowShape | client/cinelog-app/src/app/components/home/home.ts:639-648 | at most five buttons, consecutive, each a page between 1 and the last |
| Home.PageWindowHasCurrent | client/cinelog-app/src/app/components/home/home.ts:639-648 | the current page always has a button |
| Home.PageWindowAtLastPage | client/cinelog-app/src/app/components/home/home.ts:639-648 | on the last page only three buttons show |
| Home.HomeBackdropUrl | client/cinelog-app/src/app/components/home/home.ts:312-318 | the original-size backdrop, else the poster, else the placeholder |
| Home.WatchlistIds | client/cinelog-app/src/app/components/home/home.ts:144-148 | the movie ids of the first list named "Watchlist", or nothing without one |
| Home.WatchlistIdsIff | client/cinelog-app/src/app/components/home/home.ts:144-148 | a movie is in the id set exactly when the first list named "Watchlist" holds it |
| Home.HomePage.constructor | client/cinelog-app/src/app/components/home/home.ts:34-61 | the starting state of the page |
| Home.HomePage.PageNumbers | client/cinelog-app/src/app/components/home/home.ts:639-648 | the buttons of the active tab's page window |
| Home.Stepped | client/cinelog-app/src/app/components/home/home.ts:578-615 | the page a press steps to: next, previous, or the page pressed |
| Home.SearchPressAsWritten | client/cinelog-app/src/app/components/home/home.ts:582-584 | as written, a search-tab press that moves ends on page 1 and asks for page 1 of the same text; one that does not move changes nothing |
| Home.SearchPressIntended | client/cinelog-app/src/app/components/home/home.ts:582-584 | as intended, a search-tab press that moves steps like the other tabs and asks for the page it steps to; otherwise nothing is asked |
| Home.SearchStaysOnFirstPage | client/cinelog-app/src/app/components/home/home.ts:397-403 | as written, from page 1 the search page stays 1 whatever is pressed |
| Home.SearchNextStaysAsWritten | client/cinelog-app/src/app/components/home/home.ts:582-584 | on page 1 of 5, next stays on 1 and asks for page 1 where page 2 was meant; a jump to page 3 lands on 1 |
| Home.SearchNextPressesReach | client/cinelog-app/src/app/components/home/home.ts:582-584 | with the intended stepping, repeated next climbs the search pages one at a time and stops at the last |
| Home.HomePage.PerformSearch | client/cinelog-app/src/app/components/home/home.ts:397-403 | the search page becomes 1 and page 1 of the current text is asked for; nothing else in the paging changes |
| Home.HomePage.NextPage | client/cinelog-app/src/app/components/home/home.ts:578-589 | trending and discover: the page moves on unless it is the last, and the new page is asked for; search: as written, the page ends at 1 and page 1 is asked for; the other tabs' pages, page counts, movies, feed and watchlist set unchanged |
| Home.HomePage.PreviousPage | client/cinelog-app/src/app/components/home/home.ts:591-602 | trending and discover: the page moves back unless it is the first, and the new page is asked for; search: as written, the page ends at 1 and page 1 is asked for; everything else unchanged |
| Home.HomePage.GoToPage | client/cinelog-app/src/app/components/home/home.ts:604-615 | trending and discover: the page becomes the number, unchecked, and is asked for; search: as written, the page ends at 1 and page 1 is asked for; nothing on the feed tab; everything else unchanged |
| Home.HomePage.LoadMoreFeedMovies | client/cinelog-app/src/app/components/home/home.ts:266-272 | nothing while loading; otherwise asks for the next feed page; paging, movies, trailers and watchlist set unchanged |
| Home.HomePage.OnMoreFeedMovies | client/cinelog-app/src/app/components/home/home.ts:276-288 | new movies are appended; a failure steps the feed page back; loading ends; paging, grids, trailers and watchlist set unchanged |
| Home.HomePage.OnVideos | client/cinelog-app/src/app/components/home/home.ts:247-260 | records the movie's trailer key, or none on failure; everything else unchanged |
| Home.HomePage.OnUserLists | client/cinelog-app/src/app/components/home/home.ts:138-154 | a movie is in the watchlist iff the first list named "Watchlist" holds it; no such list keeps the set; paging, grids and feed unchanged |
| Home.HomePage.OnAddToListAnswer | client/cinelog-app/src/app/components/home/home.ts:363-385 | on success the movie joins the set with a success toast naming it; on a failure whose message says it is already in the list it joins with an info toast; any other failure leaves the set and shows the error toast; paging, grids and feed unchanged |
| Home.FeedTabHasNoPages | client/cinelog-app/src/app/components/home/home.ts:617-636 | on the feed tab there is page 1 of 1 and an empty grid |
| Home.GettersFollowActiveTab | client/cinelog-app/src/app/components/home/home.ts:617-636 | on a paged tab, the current page, page count and movies shown are that tab's |
| ReviewModal.Payload | client/cinelog-app/src/app/components/review-modal/review-modal.ts:237-244 | the rating defaults to 1 and the content to "" |
| ReviewModal.SubmitAsWritten | client/cinelog-app/src/app/components/review-modal/review-modal.ts:227-248 | as written, nothing is emitted iff no rating is given and the content is a string that trims to "" |
| ReviewModal.EmptyReviewAfterReset | client/cinelog-app/src/app/components/review-modal/review-modal.ts:229 | as written, rating 0 and null content emit a review rated 1 with no text |
| ReviewModal.SubmitBlockedIffNothingGiven | client/cinelog-app/src/app/components/review-modal/review-modal.ts:228-232 | the intended guard blocks exactly a missing rating together with missing or blank text |
| ReviewModal.GuardsAgreeOnText | client/cinelog-app/src/app/components/review-modal/review-modal.ts:229 | the two guards differ only on a null content |
| ReviewModal.Dialog.constructor | client/cinelog-app/src/app/components/review-modal/review-modal.ts:182-193 | no rating, empty content, today's date |
| ReviewModal.Dialog.SetRating | client/cinelog-app/src/app/components/review-modal/review-modal.ts:211-213 | the rating becomes the value; content, error, submitting flag, movie, date and list toggle unchanged |
| ReviewModal.Dialog.ClearRating | client/cinelog-app/src/app/components/review-modal/review-modal.ts:215-217 | the rating becomes 0; content, error, submitting flag, movie, date and list toggle unchanged |
| ReviewModal.Dialog.OnSubmit | client/cinelog-app/src/app/components/review-modal/review-modal.ts:227-248 | with the intended guard: nothing emitted iff no rating and no text, with the error set; otherwise submitting, the error cleared, and the payload emitted, which has a rating or some text; the form fields and the movie unchanged |
| ReviewModal.Dialog.OnCancel | client/cinelog-app/src/app/components/review-modal/review-modal.ts:250-263 | rating 0, error cleared, not submitting, dropdown closed, content null, date today |
| ReviewModal.SubmitAfterCancel | client/cinelog-app/src/app/components/review-modal/review-modal.ts:250-263 | after a cancel, the intended guard refuses the empty submit that the written guard lets through |

## Left out

- Password hashing (bcrypt salt and cost), JWT signing and verification (secret and expiry
  encoding) are parameters. Their algorithms are not modelled.
- Store behaviour that is not modelled:
  - `populate` of related documents;
  - ObjectId cast failures of path ids (ids are natural numbers);
  - races between concurrent requests on the unique indexes.
- Dates are natural numbers. `new Date(...)` parsing and ISO formatting are not modelled. The
  dialog's watched date is the text of the date input.
- Fractional ratings and movie ids are not modelled: numbers are integers.
- The driver's reading of odd offsets and limits is an assumption of the model. A skip that
  is NaN or negative is a store error (500), and so is a limit that is NaN. A negative
  limit counts by its magnitude, and a limit of 0 means no limit.
- The `!reviews` branch of getReviewsByUser can never be taken, since `find` returns an
  array. It is not modelled.
- The client's request plumbing is not modelled: HTTP, `HttpParams` encoding, rxjs
  subscriptions, change detection, timers and navigation. The methods return what would be
  sent; `setTimeout` becomes the returned `Timer`.
- `localStorage` holds text; the model stores the user as a value rather than as its JSON
  text. So `JSON.parse` throwing on a corrupt stored user is not modelled in
  AuthService.Restore or Auth.LoadFromStorage.
- On the home page, `loadTrendingMovies`, `performSearch` and `loadDiscoverMovies` are
  modelled only as the page they ask for (`PageLoad`). Their answers, the loading and
  error fields, and `setActiveTab` are not modelled. The home page's discover parameters
  are not modelled either: the discover page's are.
- The watchlist creation flows (`createWatchlistAndAddMovie`, `viewWatchlist`) are not
  modelled.
- Home.HomePage.OnAddToListAnswer: the home page looks for 'already in this list', but
  the server answers 'Movie already in list'. The model states the client's check as
  written and does not connect the two messages.
- The lists page's `viewList`, `editList`, `deleteListConfirm` and `goHome` only navigate
  or confirm, and are not modelled.
- The review dialog's `loadUserLists`, `onAddToWatchlist` and `onAddToList` only load or
  forward events, and are not modelled.
- WatchlistRoutes.GetWatchlist, ReviewController.GetReviewsByUser, ReviewController.GetFeed,
  ListController.GetUserLists: documents with an equal sort key are taken in reverse
  insertion order. The key is a millisecond timestamp (`addedAt`, or the `createdAt` of
  `timestamps: true`), so two documents saved in the same millisecond tie. The store's order
  for ties is not specified, and the ordering lemmas beside these handlers hold for the
  model's order.
- WatchlistRoutes.Added, ReviewController.CreatedReview, ReviewController.UpdatedReview:
  numeric body fields (`tmdbId`, `rating`) are taken to be numbers, whereas the JSON and
  urlencoded parsers can deliver strings. A string "0" is truthy, so it passes the
  missing-field checks. The watchlist then saves movie 0 where the model answers 400. A
  created review with rating "0" gets the 400 'Rating must be between 1 and 5' where the
  model answers the missing-fields 400. An update with rating "0" fails validation on
  save (500). A non-numeric string passes the rating range check, because comparisons with
  NaN are false. It then fails the store's cast, which is a 500. The string case is
  modelled only for adding a movie to a list (ListController.AppendAsWritten).
- The e-mail pattern is modelled for ASCII word characters only. Lower-casing covers
  ASCII letters only.
- Lengths are counted in characters (code points), whereas the schema's `minlength` and
  `maxlength` and JavaScript's `length` count UTF-16 code units. A name or review with
  characters outside the Basic Multilingual Plane is therefore measured shorter than the
  store measures it. This affects the username minimum of 3, the password minimum of 6 and
  the review maximum of 5000.
- ListController.WithMovie: the body's `tmdbId` is a number, so the typed model keeps the
  movies distinct. A string id defeats the `===` check; that case is the second finding
  below (AppendAsWritten, StringIdDuplicates).
- Numbers are exact integers, whereas JavaScript numbers are doubles. `parseInt` of more
  than 2^53 rounds, and `String(n)` switches to exponent notation from 1e21. So
  Query.PageParamOfPage, ListController.RemoveUndoesAdd, WatchlistRoutes.CheckAfterAdd,
  WatchlistRoutes.CheckAfterRemove and WatchlistRoutes.WatchPageOfPage hold only below
  those magnitudes.
- Error logging with `console.error` in the handlers and the client is not modelled: it
  changes nothing that is observed.

## Findings

| source | as written | input that shows it | evidently intended | confidence | as-written member | corrected member |
|---|---|---|---|---|---|---|
| client/cinelog-app/src/app/components/review-modal/review-modal.ts:229 | the guard requires `content?.value?.trim() === ''`; after `resetForm` (line 261) the content control is null, so the guard is false | open the dialog, cancel, and submit again from the same dialog instance (a host that toggles its `isOpen` input keeps the instance) with no rating and no text | a submit with neither a rating nor text is refused with 'Please add a rating or review' | medium, not executed | ReviewModal.EmptyReviewAfterReset | ReviewModal.Dialog.OnSubmit |
| client/cinelog-app/src/app/components/home/home.ts:582-584 | `nextPage`, `previousPage` and `goToPage` step `currentSearchPage` and then call `performSearch`, which sets it back to 1 (line 400) and asks for page 1 | a search with 5 pages of results, on page 1, press "next" or the button for page 3 | the search page moves like the trending and discover pages, and that page is asked for | high, not executed | Home.SearchStaysOnFirstPage | Home.SearchPressIntended |
| server/src/controllers/listController.ts:123 | the duplicate check compares the body's `tmdbId` with `===`, and only the save casts it to a number | add movie 550 to a list, then add it again with the JSON body `{"tmdbId": "550", "movieTitle": "Fight Club"}` | the second addition is refused with 'Movie already in list' | medium, not executed | ListController.StringIdDuplicates | ListController.AppendIntended |
