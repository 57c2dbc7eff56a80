# YiTong guides backend — a verified Dafny model

YiTong is a Spring Boot backend for a guide-sharing site. Users:

- register, log in with a JWT bearer token, and follow each other;
- write guides in three categories (travel, game, study), which are deleted logically;
- like, favourite and comment on guides;
- record daily study check-ins on study and game guides.

Administrators list, ban, reset and logically delete accounts. At start-up a bootstrap step repairs the configured administrator account.

This project models the rule layer on top of the database as an in-memory store. Correctness is proved by Dafny's verifier; nothing is executed.

- **Tables.** Each table is a sequence of value rows (`UserRecord`, `GuideRecord`, `FollowRecord`, `MarkRecord` for likes and favourites, `CheckInRecord`, `CommentRecord`). Each is held by a repository class (`UserRepository`, `GuideRepository`, …) together with its identity counter `nextId`.
  - The repositories' queries are functions over the rows.
  - `save` and the `delete…` methods are methods on the repository.
  - The database's unique keys and column lengths are checked by the `Save…` functions, which reject a violating row with `DataIntegrityViolation` and leave the table unchanged.
- **Entities.** `User`, `Guide` and `StudyCheckIn` are classes with setter methods, as in the Java entities. `createdAt` is a constant because it has no setter.
- **Services.** `UserService`, `FollowService` and `GuideService` are classes over the repositories. Each method is proved equal to a specification function (`RegisterSpec`, `FollowSpec`, `UpsertCheckInSpec`, …), and the lemmas beside those functions state what the source promises:
  - the order in which error checks fire;
  - idempotence;
  - at most one row per key;
  - "nothing else changes";
  - round trips.
- **Security.** The route rules of `SecurityConfig` are a first-match rule list (`RouteSecurity`). Token issue and verification are in `JwtTokens` and the bearer filter is in `AuthFilter`. Signing and decoding are function parameters of the model.
- **Controllers.** The read and write endpoints of the guides, follow, me and admin-user controllers are functions or methods that return what the endpoint returns (`Result`/`Outcome`). Upload extension derivation is the function `UploadApi.Extension`.
- **Errors.**
  - `Outcomes.Failure` distinguishes an `ApiException(status, message)`, a database constraint violation (HTTP 409), a bean-validation failure (HTTP 400) and an unchecked exception (HTTP 500).
  - Messages are the source's own strings.
  - Time is an integer count of seconds (`Instant`); a calendar day is an integer (`Day`). Both are parameters wherever the source reads the clock.

Source paths below are relative to the repository root.

## Model

| member | source | states |
|---|---|---|
| Outcomes.StatusOf | backend/src/main/java/com/yitong/guides/web/api/ApiExceptionHandler.java:20-72 | an ApiException keeps its own status; a constraint violation is the only non-ApiException failure answered 409; validation failures are 400 and unchecked exceptions 500 |
| Outcomes.Discard | backend/src/main/java/com/yitong/guides/service/GuideService.java:83-94 | a save's success or failure without its value: Pass exactly when the save succeeded, otherwise the save's failure |
| JavaText.ToLowerCase | backend/src/main/java/com/yitong/guides/repo/GuideRepository.java:23-24 | same length, no upper-case ASCII letter left, each character lowered independently |
| JavaText.ToLowerCaseIdempotent | backend/src/main/java/com/yitong/guides/repo/GuideRepository.java:23-24 | lowering twice is lowering once |
| JavaText.EqualsIgnoreCaseProperties | backend/src/main/java/com/yitong/guides/service/UserService.java:114 | case-insensitive equality is reflexive, symmetric, transitive and implies equal lengths |
| JavaText.StartsWithConcat | backend/src/main/java/com/yitong/guides/security/JwtAuthFilter.java:31-32 | a string starts with any prefix it was built from, and dropping the prefix gives the rest back |
| JavaText.Trim | backend/src/main/java/com/yitong/guides/service/UserService.java:113 | the result occurs inside the input, starts and ends with a non-space character (or is empty), and an already trimmed string is unchanged |
| JavaText.TrimIdempotent | backend/src/main/java/com/yitong/guides/service/UserService.java:113 | trimming twice is trimming once |
| JavaText.LongToString | backend/src/main/java/com/yitong/guides/security/JwtService.java:37 | non-empty decimal text, with a leading minus exactly for negative numbers |
| JavaText.ParseLong | backend/src/main/java/com/yitong/guides/security/JwtAuthFilter.java:35 | a parsed value is a 64-bit long and comes from non-empty text |
| JavaText.LongDecimalRoundTrip | backend/src/main/java/com/yitong/guides/security/JwtAuthFilter.java:35 | parsing the decimal text of any long gives the long back |
| Tables.ReplaceRow | backend/src/main/java/com/yitong/guides/service/UserService.java:75-80 | the row with the saved entity's id is replaced, every other row kept in place |
| Tables.Upsert | backend/src/main/java/com/yitong/guides/service/GuideService.java:83-94 | a null id appends the entity under the next id; a stored id replaces that row; an unknown non-null id fails and changes nothing |
| Tables.UpsertKeepsKeys | backend/src/main/java/com/yitong/guides/domain/StudyCheckIn.java:14-20 | a save that keeps a unique key free keeps ids issued and the key unique |
| UserEntity.RoleOf | backend/src/main/java/com/yitong/guides/domain/User.java:75-77 | ADMIN exactly when the stored role is ADMIN; a null role reads as USER |
| UserEntity.IsEnabled | backend/src/main/java/com/yitong/guides/domain/User.java:83-85 | enabled unless the stored flag is false; null reads as enabled |
| UserEntity.DisplayNamePublic | backend/src/main/java/com/yitong/guides/domain/User.java:104-111 | the fixed placeholder exactly for a deactivated account (status 2), else the display name |
| UserEntity.User.constructor | backend/src/main/java/com/yitong/guides/domain/User.java:36-41 | a new user: no id, status 0, null role and enabled flag, createdAt now |
| UserEntity.User.Load | backend/src/main/java/com/yitong/guides/domain/User.java:16-45 | the entity holds exactly the stored row |
| UserEntity.User.SetUsername | backend/src/main/java/com/yitong/guides/domain/User.java:55-57 | only the username changes |
| UserEntity.User.SetPasswordHash | backend/src/main/java/com/yitong/guides/domain/User.java:63-65 | only the hash changes |
| UserEntity.User.SetDisplayName | backend/src/main/java/com/yitong/guides/domain/User.java:71-73 | only the display name changes |
| UserEntity.User.SetRole | backend/src/main/java/com/yitong/guides/domain/User.java:79-81 | only the role changes |
| UserEntity.User.SetEnabled | backend/src/main/java/com/yitong/guides/domain/User.java:87-89 | only the enabled flag changes |
| UserEntity.User.SetStatus | backend/src/main/java/com/yitong/guides/domain/User.java:99-101 | only the status changes |
| UserEntity.User.SetPasswordChangedAt | backend/src/main/java/com/yitong/guides/domain/User.java:117-119 | only the password-change time changes |
| UserTable.FindUserById | backend/src/main/java/com/yitong/guides/service/UserService.java:57-61 | found exactly when a row has the id, and the row found has it |
| UserTable.FindByUsername | backend/src/main/java/com/yitong/guides/service/UserService.java:45 | found exactly when a row has the name, and the row found has it |
| UserTable.FindByUsernameUnique | backend/src/main/java/com/yitong/guides/domain/User.java:20-21 | the username key is unique, so looking up a stored user's name finds that user |
| UserTable.FindUserByIdUnique | backend/src/main/java/com/yitong/guides/domain/User.java:16-18 | ids are unique, so looking up a stored user's id finds that user |
| UserTable.SaveUser | backend/src/main/java/com/yitong/guides/domain/User.java:20-27 | an over-long name, a missing hash or a taken username is refused with a constraint violation and no change; otherwise an insert or a replace by id |
| UserTable.UserRepository.Save | backend/src/main/java/com/yitong/guides/domain/User.java:16-45 | the table after save is the one SaveUser gives for the entity's state |
| Accounts.CooldownDays | backend/src/main/java/com/yitong/guides/service/UserService.java:21-22 | the configured cooldown, 7 days when unset |
| Accounts.FindUser | backend/src/main/java/com/yitong/guides/service/UserService.java:57-61 | the user with the id, or 404 "用户不存在" exactly when there is none |
| Accounts.FindUserOrUnauthorized | backend/src/main/java/com/yitong/guides/service/UserService.java:63-67 | the user with the id, or 401 with the given message exactly when there is none |
| Accounts.ValidateLogin | backend/src/main/java/com/yitong/guides/service/UserService.java:44-55 | a successful login is a stored, enabled, status-0 account of that name whose hash matches; any failure is the bad-credentials 401 or the blocked 403 |
| Accounts.LoginOutcomes | backend/src/main/java/com/yitong/guides/service/UserService.java:44-55 | disabled or wrong password gives 401 with one message; only after the credentials pass does status != 0 give 403; otherwise the account |
| Accounts.LoginUnknownName | backend/src/main/java/com/yitong/guides/service/UserService.java:45-46 | an unknown username gives the same 401 as a wrong password |
| Accounts.RegisterSpec | backend/src/main/java/com/yitong/guides/service/UserService.java:31-41 | registration keeps the table valid and a refusal changes nothing |
| Accounts.RegisterOutcomes | backend/src/main/java/com/yitong/guides/service/UserService.java:31-41 | a taken username gives 409 "用户名已存在" and no change; otherwise exactly one appended USER account with the encoded password |
| Accounts.RegisterThenLogin | backend/src/main/java/com/yitong/guides/service/UserService.java:31-55 | a freshly registered account can log in with its password |
| Accounts.UpdateUserSpec | backend/src/main/java/com/yitong/guides/service/UserService.java:75-80 | the update keeps the table valid; a failure (404, null enabled) changes nothing |
| Accounts.UpdateUserReplacesRow | backend/src/main/java/com/yitong/guides/service/UserService.java:75-80 | for a stored user, only that row changes, to the new enabled flag and role; a disabled account can no longer log in |
| Accounts.SetStatusSpec | backend/src/main/java/com/yitong/guides/service/UserService.java:84-88 | keeps the table valid; a missing user changes nothing |
| Accounts.SetStatusReplacesRow | backend/src/main/java/com/yitong/guides/service/UserService.java:84-88 | any integer status is stored in that row alone, no row removed; a non-zero status blocks login with 403 |
| Accounts.DeactivateUserSpec | backend/src/main/java/com/yitong/guides/service/UserService.java:100-104 | keeps the table valid; a missing user changes nothing |
| Accounts.DeactivateIsStatusTwo | backend/src/main/java/com/yitong/guides/service/UserService.java:100-104 | deactivation is setting status 2: no row is removed and the user's public name becomes the placeholder |
| Accounts.ResetPasswordSpec | backend/src/main/java/com/yitong/guides/service/UserService.java:92-96 | keeps the table valid; a failure changes nothing |
| Accounts.ResetThenLogin | backend/src/main/java/com/yitong/guides/service/UserService.java:92-96 | only that user's hash changes, the cooldown clock is untouched, and an enabled normal account then logs in with the new password |
| Accounts.UpdateUsernameSpec | backend/src/main/java/com/yitong/guides/service/UserService.java:108-119 | keeps the table valid; a refusal changes nothing |
| Accounts.UpdateUsernameRejects | backend/src/main/java/com/yitong/guides/service/UserService.java:108-116 | status != 0 gives 403 first; a trimmed name held elsewhere, unless it equals the own name ignoring case, gives 409 |
| Accounts.UpdateUsernameRenames | backend/src/main/java/com/yitong/guides/service/UserService.java:108-119 | a free trimmed name replaces the username in that row alone, and lookup by the new name finds the user |
| Accounts.UpdateUsernameToOwnName | backend/src/main/java/com/yitong/guides/service/UserService.java:113-118 | renaming to the current name succeeds and changes nothing |
| Accounts.UpdateUsernameTwice | backend/src/main/java/com/yitong/guides/service/UserService.java:108-119 | repeating a successful rename succeeds and changes nothing |
| Accounts.UpdateUsernameCaseCollision | backend/src/main/java/com/yitong/guides/service/UserService.java:114-118 | a name that only another user holds exactly but equals the own name ignoring case passes the check and is refused by the unique key (409) |
| Accounts.UpdatePasswordSpec | backend/src/main/java/com/yitong/guides/service/UserService.java:123-142 | keeps the table valid; a refusal changes nothing |
| Accounts.UpdatePasswordOutcomes | backend/src/main/java/com/yitong/guides/service/UserService.java:123-142 | checks fire in order (403 status, 400 cooldown only when a change time is set, 400 wrong old password); otherwise only that row gets the new hash and change time, and login with the new password succeeds |
| Accounts.CooldownAfterChange | backend/src/main/java/com/yitong/guides/service/UserService.java:128-135 | a second change before the cooldown ends is refused with the cooldown message whatever passwords are given |
| Accounts.UserService.constructor | backend/src/main/java/com/yitong/guides/service/UserService.java:18-27 | holds the repository, the encoder and the configured cooldown |
| Accounts.UserService.Register | backend/src/main/java/com/yitong/guides/service/UserService.java:31-41 | the table and result are those of RegisterSpec |
| Accounts.UserService.FindAll | backend/src/main/java/com/yitong/guides/service/UserService.java:69-71 | every stored user, each once |
| Accounts.UserService.UpdateUser | backend/src/main/java/com/yitong/guides/service/UserService.java:75-80 | the table and outcome are those of UpdateUserSpec |
| Accounts.UserService.SetStatus | backend/src/main/java/com/yitong/guides/service/UserService.java:84-88 | the table and outcome are those of SetStatusSpec |
| Accounts.UserService.ResetPassword | backend/src/main/java/com/yitong/guides/service/UserService.java:92-96 | the table and outcome are those of ResetPasswordSpec |
| Accounts.UserService.DeactivateUser | backend/src/main/java/com/yitong/guides/service/UserService.java:100-104 | the table and outcome are those of DeactivateUserSpec |
| Accounts.UserService.UpdateUsername | backend/src/main/java/com/yitong/guides/service/UserService.java:108-119 | the table and outcome are those of UpdateUsernameSpec |
| Accounts.UserService.UpdatePassword | backend/src/main/java/com/yitong/guides/service/UserService.java:123-142 | the table and outcome are those of UpdatePasswordSpec |
| FollowTable.ExistsEdge | backend/src/main/java/com/yitong/guides/repo/FollowRepository.java:11 | true exactly when a row with that (follower, followee) pair exists |
| FollowTable.AtMostOneEdge | backend/src/main/java/com/yitong/guides/domain/Follow.java:13-17 | the unique key leaves at most one row per pair, and one exactly when the pair exists |
| FollowTable.FindByUserIdOrderByCreatedAtDesc | backend/src/main/java/com/yitong/guides/repo/FollowRepository.java:22 | exactly the user's outgoing edges (as a multiset), newest first |
| FollowTable.FindByFollowUserIdOrderByCreatedAtDesc | backend/src/main/java/com/yitong/guides/repo/FollowRepository.java:23 | exactly the user's incoming edges (as a multiset), newest first |
| FollowTable.SaveFollow | backend/src/main/java/com/yitong/guides/domain/Follow.java:13-17 | a duplicate pair is refused with a constraint violation and no change; a new edge is appended under the next id |
| FollowTable.DeleteAbsentEdge | backend/src/main/java/com/yitong/guides/repo/FollowRepository.java:12 | deleting an absent pair changes nothing |
| FollowTable.FollowRepository.Save | backend/src/main/java/com/yitong/guides/domain/Follow.java:13-30 | the table after save is the one SaveFollow gives |
| FollowTable.FollowRepository.DeleteByUserIdAndFollowUserId | backend/src/main/java/com/yitong/guides/repo/FollowRepository.java:12 | exactly the rows with that pair are removed, all others kept in order |
| FollowTable.FollowRepository.DeleteByUserId | backend/src/main/java/com/yitong/guides/repo/FollowRepository.java:14-16 | exactly the rows with that follower are removed |
| FollowTable.FollowRepository.DeleteByFollowUserId | backend/src/main/java/com/yitong/guides/repo/FollowRepository.java:18-20 | exactly the rows with that followee are removed |
| SocialGraph.FollowSpec | backend/src/main/java/com/yitong/guides/service/FollowService.java:24-38 | keeps the follow table valid; a refusal changes nothing |
| SocialGraph.FollowSelfRejected | backend/src/main/java/com/yitong/guides/service/FollowService.java:25-27 | following oneself is 400 "不能关注自己" before any lookup, whatever the user table holds |
| SocialGraph.FollowMissingTargetRejected | backend/src/main/java/com/yitong/guides/service/FollowService.java:28-30 | following a missing user is 404 and adds no edge |
| SocialGraph.FollowEstablishesEdge | backend/src/main/java/com/yitong/guides/service/FollowService.java:31-37 | after a valid follow the edge exists exactly once |
| SocialGraph.FollowTwice | backend/src/main/java/com/yitong/guides/service/FollowService.java:31-33 | a second follow returns silently and changes nothing |
| SocialGraph.FollowFrame | backend/src/main/java/com/yitong/guides/service/FollowService.java:24-38 | follow keeps every existing row and adds none of any other pair |
| SocialGraph.UnfollowRemovesOnlyEdge | backend/src/main/java/com/yitong/guides/service/FollowService.java:42-44 | after unfollow the edge is gone and every row of another pair is kept |
| SocialGraph.UnfollowAbsentIsNoOp | backend/src/main/java/com/yitong/guides/service/FollowService.java:42-44 | unfollowing an absent edge changes nothing |
| SocialGraph.UnfollowUndoesFollow | backend/src/main/java/com/yitong/guides/service/FollowService.java:24-44 | from a state without the edge, follow then unfollow restores the table |
| SocialGraph.FollowService.Follow | backend/src/main/java/com/yitong/guides/service/FollowService.java:24-38 | the table and outcome are those of FollowSpec |
| SocialGraph.FollowService.Unfollow | backend/src/main/java/com/yitong/guides/service/FollowService.java:42-44 | the table becomes UnfollowSpec of the old one |
| SocialGraph.FollowService.ExistsByUserIdAndFollowUserId | backend/src/main/java/com/yitong/guides/service/FollowService.java:46-48 | true exactly when a row with that pair exists |
| GuideEntity.Guide.constructor | backend/src/main/java/com/yitong/guides/domain/Guide.java:40-48 | a new guide: no id, createdAt and updatedAt now, not deleted |
| GuideEntity.Guide.Load | backend/src/main/java/com/yitong/guides/domain/Guide.java:23-48 | the entity holds exactly the stored row |
| GuideEntity.Guide.SetAuthor | backend/src/main/java/com/yitong/guides/domain/Guide.java:58 | only the author changes |
| GuideEntity.Guide.SetTitle | backend/src/main/java/com/yitong/guides/domain/Guide.java:66 | only the title changes |
| GuideEntity.Guide.SetCategory | backend/src/main/java/com/yitong/guides/domain/Guide.java:74 | only the category changes |
| GuideEntity.Guide.SetTemplateKey | backend/src/main/java/com/yitong/guides/domain/Guide.java:82 | only the template key changes |
| GuideEntity.Guide.SetContentMarkdown | backend/src/main/java/com/yitong/guides/domain/Guide.java:90 | only the content changes |
| GuideEntity.Guide.TouchUpdatedAt | backend/src/main/java/com/yitong/guides/domain/Guide.java:102-104 | only updatedAt changes |
| GuideEntity.Guide.SetDeleted | backend/src/main/java/com/yitong/guides/domain/Guide.java:110-112 | only the deleted flag changes |
| GuideTable.FindGuideById | backend/src/main/java/com/yitong/guides/service/GuideService.java:60-64 | found exactly when a row has the id, deleted or not |
| GuideTable.FindByIdWithAuthor | backend/src/main/java/com/yitong/guides/repo/GuideRepository.java:40-41 | found exactly when a non-deleted row has the id |
| GuideTable.LookupsAndDeletion | backend/src/main/java/com/yitong/guides/repo/GuideRepository.java:40-43 | the by-id lookup finds a stored guide whatever its flag; the live lookups treat a deleted guide as absent and find a live one |
| GuideTable.Search | backend/src/main/java/com/yitong/guides/repo/GuideRepository.java:18-27 | a guide is returned exactly when it is stored, not deleted, of the category (any, when null) and, for a non-null text, its title or content contains the text ignoring case |
| GuideTable.SearchEmptyText | backend/src/main/java/com/yitong/guides/repo/GuideRepository.java:23-24 | an empty text filters nothing |
| GuideTable.SearchIgnoresCase | backend/src/main/java/com/yitong/guides/repo/GuideRepository.java:23-24 | the text's case does not matter |
| GuideTable.CategoryFinderIsSearch | backend/src/main/java/com/yitong/guides/repo/GuideRepository.java:15 | the category finder is search with that category and no text |
| GuideTable.FindByAuthorIdAndDeletedFalseOrderByCreatedAtDesc | backend/src/main/java/com/yitong/guides/repo/GuideRepository.java:30 | one page of the author's non-deleted guides, newest first; the first page that is large enough holds them all |
| GuideTable.FindByAuthorIdOrderByCreatedAtDesc | backend/src/main/java/com/yitong/guides/repo/GuideRepository.java:32-33 | one page of all the author's guides, deleted ones included, newest first |
| GuideTable.FindFeed | backend/src/main/java/com/yitong/guides/repo/GuideRepository.java:35-38 | one page of the listed authors' non-deleted guides, newest first |
| GuideTable.SaveGuide | backend/src/main/java/com/yitong/guides/domain/Guide.java:23-48 | an over-long title or template key is refused with no change; otherwise an insert or a replace by id |
| GuideTable.GuideRepository.Save | backend/src/main/java/com/yitong/guides/domain/Guide.java:23-48 | the table after save is the one SaveGuide gives |
| MarkTable.CountByGuideId | backend/src/main/java/com/yitong/guides/repo/GuideLikeRepository.java:7 | zero exactly when no row is on the guide |
| MarkTable.ExistsPair | backend/src/main/java/com/yitong/guides/repo/GuideLikeRepository.java:8 | true exactly when a (user, guide) row exists |
| MarkTable.AtMostOnePair | backend/src/main/java/com/yitong/guides/domain/GuideLike.java:13-15 | with one row per pair, the pair has at most one row, one exactly when it exists |
| MarkTable.CountIsDistinctUsers | backend/src/main/java/com/yitong/guides/repo/GuideLikeRepository.java:7 | with one row per pair, the count is the number of distinct users |
| MarkTable.FindByUserIdOrderByCreatedAtDesc | backend/src/main/java/com/yitong/guides/repo/GuideFavoriteRepository.java:11 | exactly the user's rows, newest first |
| MarkTable.SaveMark | backend/src/main/java/com/yitong/guides/domain/GuideLike.java:13-55 | with the like table's unique key, a duplicate pair is refused with no change; otherwise the row is appended under the next id |
| MarkTable.DeleteAbsentPair | backend/src/main/java/com/yitong/guides/repo/GuideLikeRepository.java:9 | deleting an absent pair changes nothing |
| MarkTable.MarkRepository.Save | backend/src/main/java/com/yitong/guides/domain/GuideLike.java:13-55 | the table after save is the one SaveMark gives |
| MarkTable.MarkRepository.DeleteByUserIdAndGuideId | backend/src/main/java/com/yitong/guides/repo/GuideFavoriteRepository.java:10 | exactly the pair's rows are removed, others kept in order |
| MarkTable.MarkRepository.DeleteByGuideId | backend/src/main/java/com/yitong/guides/repo/GuideLikeRepository.java:10 | exactly the guide's rows are removed |
| MarkTable.MarkRepository.DeleteByUserId | backend/src/main/java/com/yitong/guides/repo/GuideFavoriteRepository.java:13 | exactly the user's rows are removed |
| CheckInEntity.StudyCheckIn.constructor | backend/src/main/java/com/yitong/guides/domain/StudyCheckIn.java:26-42 | a new check-in: no id, no day, progress 0, createdAt now |
| CheckInEntity.StudyCheckIn.Load | backend/src/main/java/com/yitong/guides/domain/StudyCheckIn.java:26-42 | the entity holds exactly the stored row |
| CheckInEntity.StudyCheckIn.SetUserId | backend/src/main/java/com/yitong/guides/domain/StudyCheckIn.java:52 | only the user changes |
| CheckInEntity.StudyCheckIn.SetGuideId | backend/src/main/java/com/yitong/guides/domain/StudyCheckIn.java:60 | only the guide changes |
| CheckInEntity.StudyCheckIn.SetDay | backend/src/main/java/com/yitong/guides/domain/StudyCheckIn.java:68 | only the day changes |
| CheckInEntity.StudyCheckIn.SetProgress | backend/src/main/java/com/yitong/guides/domain/StudyCheckIn.java:76 | only the progress changes |
| CheckInEntity.StudyCheckIn.SetNote | backend/src/main/java/com/yitong/guides/domain/StudyCheckIn.java:84 | only the note changes |
| CheckInTable.FindByUserIdAndGuideIdAndDay | backend/src/main/java/com/yitong/guides/repo/StudyCheckInRepository.java:14 | a record of that user, guide and day, absent exactly when there is none |
| CheckInTable.SlotLookupUnique | backend/src/main/java/com/yitong/guides/domain/StudyCheckIn.java:14-20 | each (user, guide, day) has exactly one stored record, and the lookup finds it |
| CheckInTable.FindByUserIdAndGuideIdOrderByDayAsc | backend/src/main/java/com/yitong/guides/repo/StudyCheckInRepository.java:12 | exactly the pair's records, days ascending |
| CheckInTable.SlotsDifferInDay | backend/src/main/java/com/yitong/guides/domain/StudyCheckIn.java:14-20 | two different records of one user and guide have different days |
| CheckInTable.DaysStrictlyAscending | backend/src/main/java/com/yitong/guides/repo/StudyCheckInRepository.java:12 | the pair's listing has strictly ascending days |
| CheckInTable.FindByUserIdOrderByCreatedAtDesc | backend/src/main/java/com/yitong/guides/repo/StudyCheckInRepository.java:13 | one page of the user's records, newest first |
| CheckInTable.CountDistinctUserIdByGuideId | backend/src/main/java/com/yitong/guides/repo/StudyCheckInRepository.java:15-17 | at most the guide's row count, and zero exactly when the guide has no record |
| CheckInTable.SaveCheckIn | backend/src/main/java/com/yitong/guides/domain/StudyCheckIn.java:14-42 | a missing day, an over-long note or an occupied (user, guide, day) is refused with no change; otherwise an insert or a replace by id |
| CheckInTable.SaveOverwritesCheckIn | backend/src/main/java/com/yitong/guides/domain/StudyCheckIn.java:14-42 | saving a stored record with new progress and note replaces that row alone and leaves its slot unique |
| CheckInTable.CheckInRepository.Save | backend/src/main/java/com/yitong/guides/domain/StudyCheckIn.java:14-42 | the table after save is the one SaveCheckIn gives |
| CheckInTable.CheckInRepository.DeleteByGuideId | backend/src/main/java/com/yitong/guides/repo/StudyCheckInRepository.java:18 | exactly the guide's records are removed |
| CheckInTable.CheckInRepository.DeleteByUserId | backend/src/main/java/com/yitong/guides/repo/StudyCheckInRepository.java:19 | exactly the user's records are removed |
| CommentTable.FindByGuideIdOrderByCreatedAtAsc | backend/src/main/java/com/yitong/guides/repo/CommentRepository.java:10-11 | exactly the guide's comments, oldest first |
| CommentTable.SaveComment | backend/src/main/java/com/yitong/guides/repo/CommentRepository.java:9 | a new comment is appended under the next id |
| CommentTable.CommentRepository.Save | backend/src/main/java/com/yitong/guides/repo/CommentRepository.java:9 | the table after save is the one SaveComment gives |
| CommentTable.CommentRepository.DeleteByGuideId | backend/src/main/java/com/yitong/guides/repo/CommentRepository.java:12 | exactly the guide's comments are removed |
| CommentTable.CommentRepository.DeleteByUserId | backend/src/main/java/com/yitong/guides/repo/CommentRepository.java:13 | exactly the user's comments are removed |
| GuideContent.GetByIdWithAuthor | backend/src/main/java/com/yitong/guides/service/GuideService.java:54-58 | the live guide with the id, else 404 "攻略不存在" |
| GuideContent.GetById | backend/src/main/java/com/yitong/guides/service/GuideService.java:60-64 | the guide with the id even when deleted, else 404 |
| GuideContent.SearchText | backend/src/main/java/com/yitong/guides/service/GuideService.java:74-78 | a null or blank query becomes "no text filter", any other is passed on unchanged |
| GuideContent.BlankSearchIsUnfiltered | backend/src/main/java/com/yitong/guides/service/GuideService.java:74-79 | a blank query lists every live guide of the category |
| GuideContent.CreateSpec | backend/src/main/java/com/yitong/guides/service/GuideService.java:83-94 | keeps the guide table valid; a refusal changes nothing |
| GuideContent.CreateAppendsGuide | backend/src/main/java/com/yitong/guides/service/GuideService.java:83-94 | a missing author is 401; a storable guide is appended once, live, with createdAt = updatedAt = now |
| GuideContent.UpdateSpec | backend/src/main/java/com/yitong/guides/service/GuideService.java:98-109 | keeps the guide table valid; a refusal changes nothing |
| GuideContent.UpdateRejects | backend/src/main/java/com/yitong/guides/service/GuideService.java:99-103 | a missing or deleted guide is 404; a non-author is 403 and nothing changes |
| GuideContent.UpdateByAuthor | backend/src/main/java/com/yitong/guides/service/GuideService.java:98-109 | the author's update replaces the four fields and touches updatedAt in that row alone, keeping id, author and createdAt |
| GuideContent.DeleteSpec | backend/src/main/java/com/yitong/guides/service/GuideService.java:113-120 | keeps the guide table valid; a refusal changes nothing |
| GuideContent.DeleteSetsFlag | backend/src/main/java/com/yitong/guides/service/GuideService.java:113-120 | the author's delete only sets the row's deleted flag and removes nothing; anyone else gets 403 |
| GuideContent.DeleteTwice | backend/src/main/java/com/yitong/guides/service/GuideService.java:114 | deleting an already deleted guide succeeds again |
| GuideContent.MarkSpec | backend/src/main/java/com/yitong/guides/service/GuideService.java:124-135 | a like or favourite keeps its table valid; a refusal changes nothing |
| GuideContent.MarkEstablishesPair | backend/src/main/java/com/yitong/guides/service/GuideService.java:124-156 | fails (404) exactly when no guide row exists; on success the pair exists, and exactly once when pairs were unique |
| GuideContent.MarkDeletedGuide | backend/src/main/java/com/yitong/guides/service/GuideService.java:125-127 | a logically deleted guide can still be liked or favourited |
| GuideContent.MarkTwice | backend/src/main/java/com/yitong/guides/service/GuideService.java:128-130 | a repeated like or favourite changes nothing and repeats the outcome |
| GuideContent.MarkFrame | backend/src/main/java/com/yitong/guides/service/GuideService.java:124-156 | every row is kept and only a row of that pair can be added |
| GuideContent.UnmarkRemovesOnlyPair | backend/src/main/java/com/yitong/guides/service/GuideService.java:139-141 | after unlike or unfavourite the pair is gone and rows of other pairs are kept |
| GuideContent.UnmarkAbsentIsNoOp | backend/src/main/java/com/yitong/guides/service/GuideService.java:160-162 | removing an absent pair changes nothing |
| GuideContent.UnmarkUndoesMark | backend/src/main/java/com/yitong/guides/service/GuideService.java:124-162 | from a state without the pair, like then unlike restores the table |
| GuideContent.CreateCommentSpec | backend/src/main/java/com/yitong/guides/service/GuideService.java:166-176 | keeps the comment table valid and a saved comment belongs to an existing user and the guide |
| GuideContent.CreateCommentChecks | backend/src/main/java/com/yitong/guides/service/GuideService.java:166-176 | missing or deleted guide 404 first, then missing user 401, otherwise one appended comment |
| GuideContent.UpsertCheckInSpec | backend/src/main/java/com/yitong/guides/service/GuideService.java:180-194 | keeps the check-in table valid; a refusal changes nothing |
| GuideContent.UpsertCheckInRejects | backend/src/main/java/com/yitong/guides/service/GuideService.java:181-184 | a missing or deleted guide is 404; a live guide that is not STUDY or GAME is 400 |
| GuideContent.UpsertCheckInReuses | backend/src/main/java/com/yitong/guides/service/GuideService.java:185-193 | an existing (user, guide, day) record gets the new progress and note, keeps id and createdAt, is still the only one, and other rows are untouched |
| GuideContent.UpsertCheckInCreates | backend/src/main/java/com/yitong/guides/service/GuideService.java:185-193 | without such a record, one new record is appended under the next id |
| GuideContent.GuideService.constructor | backend/src/main/java/com/yitong/guides/service/GuideService.java:35-48 | holds its six repositories |
| GuideContent.GuideService.Create | backend/src/main/java/com/yitong/guides/service/GuideService.java:83-94 | the table and result are those of CreateSpec |
| GuideContent.GuideService.Update | backend/src/main/java/com/yitong/guides/service/GuideService.java:98-109 | the table and result are those of UpdateSpec |
| GuideContent.GuideService.Delete | backend/src/main/java/com/yitong/guides/service/GuideService.java:113-120 | the table and outcome are those of DeleteSpec |
| GuideContent.GuideService.Like | backend/src/main/java/com/yitong/guides/service/GuideService.java:124-135 | the like table and outcome are those of MarkSpec |
| GuideContent.GuideService.Unlike | backend/src/main/java/com/yitong/guides/service/GuideService.java:139-141 | the like table becomes UnmarkSpec of the old one |
| GuideContent.GuideService.Favorite | backend/src/main/java/com/yitong/guides/service/GuideService.java:145-156 | the favourite table and outcome are those of MarkSpec, without a unique key |
| GuideContent.GuideService.Unfavorite | backend/src/main/java/com/yitong/guides/service/GuideService.java:160-162 | the favourite table becomes UnmarkSpec of the old one |
| GuideContent.GuideService.CreateComment | backend/src/main/java/com/yitong/guides/service/GuideService.java:166-176 | the table and result are those of CreateCommentSpec |
| GuideContent.GuideService.UpsertCheckIn | backend/src/main/java/com/yitong/guides/service/GuideService.java:180-194 | the table and result are those of UpsertCheckInSpec |
| JwtTokens.IssueClaims | backend/src/main/java/com/yitong/guides/security/JwtService.java:30-41 | the configured issuer, expiry = issue time + minutes × 60, a subject that parses back to the user id, username and role verbatim |
| JwtTokens.Verify | backend/src/main/java/com/yitong/guides/security/JwtService.java:43-45 | claims exactly for a token that decodes, carries the configured issuer, was not issued after now and whose expiry is after now (refused from the expiry second on) |
| JwtTokens.IssueThenVerify | backend/src/main/java/com/yitong/guides/security/JwtService.java:30-45 | an issued token verifies to its claims from its issue second up to the second before its expiry, and is refused from the expiry on |
| JwtTokens.ForeignIssuerRefused | backend/src/main/java/com/yitong/guides/security/JwtService.java:27 | a token of another issuer is refused |
| RouteSecurity.DecideIsFirstMatch | backend/src/main/java/com/yitong/guides/security/SecurityConfig.java:36-42 | the first matching rule decides; with none, authentication is required |
| RouteSecurity.OptionsAlwaysPermitted | backend/src/main/java/com/yitong/guides/security/SecurityConfig.java:37 | OPTIONS is permitted on every path |
| RouteSecurity.OpenPathsPermitted | backend/src/main/java/com/yitong/guides/security/SecurityConfig.java:38-39 | the auth, swagger and h2 paths are permitted for every method |
| RouteSecurity.PublicReadsPermitted | backend/src/main/java/com/yitong/guides/security/SecurityConfig.java:40 | GET on the guides subtree, the template list and uploads is permitted |
| RouteSecurity.OtherRequestsNeedLogin | backend/src/main/java/com/yitong/guides/security/SecurityConfig.java:40-42 | writes to guides and the me, users and upload paths need a principal; anonymous is refused |
| RouteSecurity.AdminNeedsRole | backend/src/main/java/com/yitong/guides/security/SecurityConfig.java:41 | the admin subtree is permitted exactly with authority ROLE_ADMIN |
| AuthFilter.BearerToken | backend/src/main/java/com/yitong/guides/security/JwtAuthFilter.java:30-32 | a token exactly when the header starts with "Bearer ", and the header is the prefix plus the token |
| AuthFilter.BearerRoundTrip | backend/src/main/java/com/yitong/guides/security/JwtAuthFilter.java:32 | prefixing a token and parsing gives the token back |
| AuthFilter.Authorities | backend/src/main/java/com/yitong/guides/security/JwtAuthFilter.java:39-42 | at most one authority, none exactly for a null or blank role |
| AuthFilter.AdminAuthorityOnlyForAdmin | backend/src/main/java/com/yitong/guides/security/JwtAuthFilter.java:41 | ROLE_ADMIN is granted exactly for role claim ADMIN |
| AuthFilter.Authenticate | backend/src/main/java/com/yitong/guides/security/JwtAuthFilter.java:30-49 | a principal only for a bearer token that verifies with a numeric subject, built from that subject, the username claim and the role's authority; otherwise anonymous |
| AuthFilter.LoginTokenAuthenticates | backend/src/main/java/com/yitong/guides/security/JwtAuthFilter.java:30-46 | a token issued for a user authenticates as that user id and username while valid |
| AuthFilter.AdminTokenOpensAdmin | backend/src/main/java/com/yitong/guides/security/SecurityConfig.java:41 | a freshly issued token reaches admin routes exactly when its role is ADMIN |
| AuthFilter.SecurityContext.constructor | backend/src/main/java/com/yitong/guides/security/JwtAuthFilter.java:46 | the request starts anonymous |
| AuthFilter.FilterChain.constructor | backend/src/main/java/com/yitong/guides/security/JwtAuthFilter.java:51 | no invocation yet |
| AuthFilter.FilterChain.DoFilter | backend/src/main/java/com/yitong/guides/security/JwtAuthFilter.java:51 | one more invocation of the rest of the chain |
| AuthFilter.JwtAuthFilter.constructor | backend/src/main/java/com/yitong/guides/security/JwtAuthFilter.java:22-24 | holds the token configuration and signer |
| AuthFilter.JwtAuthFilter.DoFilterInternal | backend/src/main/java/com/yitong/guides/security/JwtAuthFilter.java:27-52 | the chain runs exactly once; the context gets the authentication when one is derived and is otherwise left as it was |
| WebApi.MustAuth | backend/src/main/java/com/yitong/guides/web/api/GuidesController.java:51-56 | the principal exactly when there is one, else 401 "请先登录" |
| WebApi.AuthorOf | backend/src/main/java/com/yitong/guides/web/api/GuidesController.java:103-107 | the stored user with the guide's author id |
| WebApi.AuthorIsTheUserWithThatId | backend/src/main/java/com/yitong/guides/web/api/GuidesController.java:103-107 | with unique ids, the author found is the one stored user with that id |
| FollowApi.FollowedIds | backend/src/main/java/com/yitong/guides/web/api/FollowController.java:99-101 | exactly the users the caller follows |
| FollowApi.MyFollowing | backend/src/main/java/com/yitong/guides/web/api/FollowController.java:70-81 | 401 exactly without a principal; each entry is a stored user the caller follows, marked following |
| FollowApi.MyFollowingKeepsFollowOrder | backend/src/main/java/com/yitong/guides/web/api/FollowController.java:72-80 | the entries are the followed ids in follow order, newest first, with ids lacking a user row dropped |
| FollowApi.FeedCards | backend/src/main/java/com/yitong/guides/web/api/FollowController.java:105-113 | one card per guide, in order |
| FollowApi.FeedCardsKeepOrder | backend/src/main/java/com/yitong/guides/web/api/FollowController.java:104-114 | cards of newest-first guides are newest first |
| FollowApi.Feed | backend/src/main/java/com/yitong/guides/web/api/FollowController.java:94-115 | 401 without a principal; empty when following nobody; otherwise an illegal page is an error and a page holds at most size cards, newest first, each of a live guide by a followee |
| FollowApi.FeedIsCardsOfPage | backend/src/main/java/com/yitong/guides/web/api/FollowController.java:103-114 | the feed is the cards of the feed query's page |
| FollowApi.FirstFeedPageHoldsAll | backend/src/main/java/com/yitong/guides/repo/GuideRepository.java:35-38 | a first page large enough for all matches holds every live guide of the authors |
| FollowApi.FeedFirstPageIsComplete | backend/src/main/java/com/yitong/guides/web/api/FollowController.java:94-115 | such a first feed page shows every live guide of every followee |
| FollowApi.FeedCardMasksDeactivatedAuthor | backend/src/main/java/com/yitong/guides/web/api/FollowController.java:110 | a deactivated author's card shows the placeholder name |
| FollowApi.FeedMasksDeactivatedAuthors | backend/src/main/java/com/yitong/guides/web/api/FollowController.java:110 | no feed card shows the name of a deactivated author |
| FollowApi.IsFollowing | backend/src/main/java/com/yitong/guides/web/api/FollowController.java:118-121 | false for anonymous callers, otherwise whether the edge exists |
| FollowApi.FollowController.constructor | backend/src/main/java/com/yitong/guides/web/api/FollowController.java:33-44 | holds the follow service |
| FollowApi.FollowController.Follow | backend/src/main/java/com/yitong/guides/web/api/FollowController.java:55-58 | 401 and no change without a principal, otherwise FollowSpec for the caller |
| FollowApi.FollowController.Unfollow | backend/src/main/java/com/yitong/guides/web/api/FollowController.java:62-65 | 401 and no change without a principal, otherwise UnfollowSpec for the caller |
| GuidesApi.SortKeyIgnoresCase | backend/src/main/java/com/yitong/guides/web/api/GuidesController.java:93-96 | the sort choice depends on the parameter only up to case |
| GuidesApi.Cards | backend/src/main/java/com/yitong/guides/web/api/GuidesController.java:99-110 | one card per guide, in order |
| GuidesApi.ListedGuides | backend/src/main/java/com/yitong/guides/web/api/GuidesController.java:93-98 | at most a page of live guides matching category and text, ordered by the chosen key descending |
| GuidesApi.List | backend/src/main/java/com/yitong/guides/web/api/GuidesController.java:86-111 | an illegal page is an error; otherwise at most size cards of matching live guides, newest first unless sort is "updated" |
| GuidesApi.ListIsCardsOfPage | backend/src/main/java/com/yitong/guides/web/api/GuidesController.java:97-110 | the list is the cards of the search page |
| GuidesApi.ListByUpdate | backend/src/main/java/com/yitong/guides/web/api/GuidesController.java:94-96 | sort "updated", in any case, orders by updatedAt descending |
| GuidesApi.FirstPageHoldsAll | backend/src/main/java/com/yitong/guides/service/GuideService.java:74-80 | a first page large enough holds every live guide of the category that matches a non-blank text |
| GuidesApi.ListFirstPageIsComplete | backend/src/main/java/com/yitong/guides/web/api/GuidesController.java:86-111 | a first page large enough shows the card of every live guide of the category that matches a non-blank text (every such guide, when the text is null or blank) |
| GuidesApi.Detail | backend/src/main/java/com/yitong/guides/web/api/GuidesController.java:113-143 | 404 exactly for a missing or deleted guide; otherwise the stored guide with its author's public name, the like and favourite counts, the distinct check-in user count, and the caller's liked, favourited and checked-in-today flags |
| GuidesApi.DetailShowsStoredGuide | backend/src/main/java/com/yitong/guides/web/api/GuidesController.java:113-143 | a live stored guide is shown as stored |
| GuidesApi.AnonymousDetail | backend/src/main/java/com/yitong/guides/web/api/GuidesController.java:118-125 | anonymous callers see the same detail with the three personal flags false |
| GuidesApi.DetailCountsLikers | backend/src/main/java/com/yitong/guides/web/api/GuidesController.java:116 | the like count is the number of distinct likers |
| GuidesApi.CommentViews | backend/src/main/java/com/yitong/guides/web/api/GuidesController.java:221-223 | one view per comment, in order |
| GuidesApi.ListComments | backend/src/main/java/com/yitong/guides/web/api/GuidesController.java:216-224 | 404 exactly when no guide row exists; otherwise every comment on the guide, oldest first |
| GuidesApi.DeletedGuideKeepsComments | backend/src/main/java/com/yitong/guides/web/api/GuidesController.java:218-220 | a deleted guide's comments are still listed |
| GuidesApi.ListCheckIns | backend/src/main/java/com/yitong/guides/web/api/GuidesController.java:243-253 | 401, then 404 for a missing or deleted guide, then 400 unless STUDY or GAME; otherwise the caller's records on the guide, days ascending |
| GuidesApi.CheckInDaysStrictlyAscending | backend/src/main/java/com/yitong/guides/web/api/GuidesController.java:247-252 | the listed days are strictly ascending |
| GuidesApi.BlankTitleRefused | backend/src/main/java/com/yitong/guides/web/api/GuidesController.java:145-149 | a blank title fails validation |
| GuidesApi.SaveKeepsAuthors | backend/src/main/java/com/yitong/guides/domain/Guide.java:23-25 | saving a guide by an existing author keeps every guide's author on file |
| GuidesApi.CreateKeepsAuthors | backend/src/main/java/com/yitong/guides/service/GuideService.java:83-94 | create keeps every guide's author on file |
| GuidesApi.UpdateKeepsAuthors | backend/src/main/java/com/yitong/guides/service/GuideService.java:98-109 | update keeps every guide's author on file |
| GuidesApi.DeleteKeepsAuthors | backend/src/main/java/com/yitong/guides/service/GuideService.java:113-120 | delete keeps every guide's author on file |
| GuidesApi.CreateCommentKeepsCommenters | backend/src/main/java/com/yitong/guides/service/GuideService.java:166-176 | creating a comment keeps every commenter on file |
| GuidesApi.CreatedGuideIsShown | backend/src/main/java/com/yitong/guides/web/api/GuidesController.java:151-162 | a created guide is shown right away as it was written |
| GuidesApi.GuidesController.constructor | backend/src/main/java/com/yitong/guides/web/api/GuidesController.java:42-49 | holds the guide service |
| GuidesApi.GuidesController.Create | backend/src/main/java/com/yitong/guides/web/api/GuidesController.java:151-162 | validation, then 401, both with no change; otherwise CreateSpec, answering its error or the new guide's detail |
| GuidesApi.GuidesController.Update | backend/src/main/java/com/yitong/guides/web/api/GuidesController.java:164-176 | validation, then 401, both with no change; otherwise UpdateSpec, answering its error or the detail |
| GuidesApi.GuidesController.Delete | backend/src/main/java/com/yitong/guides/web/api/GuidesController.java:178-183 | 401 and no change without a principal, otherwise DeleteSpec for the caller |
| GuidesApi.GuidesController.Like | backend/src/main/java/com/yitong/guides/web/api/GuidesController.java:185-190 | 401 and no change without a principal, otherwise MarkSpec on likes |
| GuidesApi.GuidesController.Unlike | backend/src/main/java/com/yitong/guides/web/api/GuidesController.java:192-197 | 401 and no change without a principal, otherwise UnmarkSpec on likes |
| GuidesApi.GuidesController.Favorite | backend/src/main/java/com/yitong/guides/web/api/GuidesController.java:199-204 | 401 and no change without a principal, otherwise MarkSpec on favourites |
| GuidesApi.GuidesController.Unfavorite | backend/src/main/java/com/yitong/guides/web/api/GuidesController.java:206-211 | 401 and no change without a principal, otherwise UnmarkSpec on favourites |
| GuidesApi.GuidesController.CreateComment | backend/src/main/java/com/yitong/guides/web/api/GuidesController.java:226-237 | validation, then 401, both with no change; otherwise CreateCommentSpec and the new comment's view |
| GuidesApi.GuidesController.UpsertCheckIn | backend/src/main/java/com/yitong/guides/web/api/GuidesController.java:255-261 | validation (day present, progress 0..100), then 401, both with no change; otherwise UpsertCheckInSpec and the record's view |
| MeApi.Me | backend/src/main/java/com/yitong/guides/web/api/MeController.java:56-64 | 401 without a principal or without a row; 403 exactly when status != 0; otherwise the caller's id, names and role |
| MeApi.MeAfterDeactivation | backend/src/main/java/com/yitong/guides/web/api/MeController.java:59-62 | after deactivation the caller's me is 403 |
| MeApi.MyGuides | backend/src/main/java/com/yitong/guides/web/api/MeController.java:88-94 | 401 exactly without a principal; at most 50 of the caller's live guides, newest first |
| MeApi.MyGuidesComplete | backend/src/main/java/com/yitong/guides/web/api/MeController.java:88-94 | with at most 50 live guides, every one is listed |
| MeApi.MyFavorites | backend/src/main/java/com/yitong/guides/web/api/MeController.java:96-107 | 401 exactly without a principal; each entry is a live guide the caller favourited |
| MeApi.MyFavoritesKeepOrder | backend/src/main/java/com/yitong/guides/web/api/MeController.java:99-106 | the entries are the favourited ids in favourite order, with missing and deleted guides dropped |
| MeApi.MyFavoritesComplete | backend/src/main/java/com/yitong/guides/web/api/MeController.java:96-107 | every live favourited guide is listed |
| MeApi.LiveGuidesById | backend/src/main/java/com/yitong/guides/web/api/MeController.java:116-122 | exactly the listed ids whose guide exists and is live, each mapped to that guide |
| MeApi.Entries | backend/src/main/java/com/yitong/guides/web/api/MeController.java:123-131 | one entry per check-in, in order, with the guide's title |
| MeApi.MyCheckins | backend/src/main/java/com/yitong/guides/web/api/MeController.java:112-132 | 401 exactly without a principal; at most 200 entries newest first, each a check-in of the caller on a live guide with that guide's title |
| MeApi.KeptKeepsOrder | backend/src/main/java/com/yitong/guides/web/api/MeController.java:123-124 | dropping records keeps a newest-first listing newest first |
| MeApi.MyCheckinsAreLivePage | backend/src/main/java/com/yitong/guides/web/api/MeController.java:115-131 | the entries are the 200 newest check-ins with those on missing or deleted guides dropped, in order |
| MeApi.MeController.constructor | backend/src/main/java/com/yitong/guides/web/api/MeController.java:36-45 | holds the user service |
| MeApi.MeController.UpdateUsername | backend/src/main/java/com/yitong/guides/web/api/MeController.java:66-73 | validation (3..32 characters, not blank), then 401, both with no change; otherwise UpdateUsernameSpec for the caller |
| MeApi.MeController.UpdatePassword | backend/src/main/java/com/yitong/guides/web/api/MeController.java:75-84 | validation (old not blank, new 6..72 characters), then 401, both with no change; otherwise UpdatePasswordSpec for the caller |
| AdminApi.AdminViewOf | backend/src/main/java/com/yitong/guides/web/api/AdminUserController.java:46-62 | the stored fields, with a null role shown as USER and a null enabled flag as enabled |
| AdminApi.DeleteUserCheck | backend/src/main/java/com/yitong/guides/web/api/AdminUserController.java:90-99 | 401 without a principal, 401 without a row, then pass exactly when the stored role is ADMIN, else 403 |
| AdminApi.DeleteNeedsStoredAdmin | backend/src/main/java/com/yitong/guides/web/api/AdminUserController.java:93-99 | the stored role decides, whatever authorities the token carries |
| AdminApi.DemotedAdminRefused | backend/src/main/java/com/yitong/guides/web/api/AdminUserController.java:96-99 | a token with ROLE_ADMIN whose account is now USER is refused with 403 |
| AdminApi.AdminUserController.constructor | backend/src/main/java/com/yitong/guides/web/api/AdminUserController.java:31-33 | holds the user service |
| AdminApi.AdminUserController.List | backend/src/main/java/com/yitong/guides/web/api/AdminUserController.java:46-62 | one view per stored account, every account shown |
| AdminApi.AdminUserController.Update | backend/src/main/java/com/yitong/guides/web/api/AdminUserController.java:66-70 | enabled and role go to UpdateUserSpec unchecked |
| AdminApi.AdminUserController.SetStatus | backend/src/main/java/com/yitong/guides/web/api/AdminUserController.java:75-79 | a null status fails before the service with no change; any integer otherwise goes to SetStatusSpec |
| AdminApi.AdminUserController.ResetPassword | backend/src/main/java/com/yitong/guides/web/api/AdminUserController.java:83-87 | the password goes to ResetPasswordSpec unchecked |
| AdminApi.AdminUserController.DeleteUser | backend/src/main/java/com/yitong/guides/web/api/AdminUserController.java:90-101 | a failed guard is answered with no change; otherwise DeactivateUserSpec, so no row is removed |
| UploadApi.BeforeSemicolon | backend/src/main/java/com/yitong/guides/web/api/UploadController.java:42 | the longest prefix without a semicolon |
| UploadApi.NormalizedExt | backend/src/main/java/com/yitong/guides/web/api/UploadController.java:50-55 | always an allowed extension other than jpeg; an allowed subtype is kept, jpeg and unknown ones become jpg |
| UploadApi.Subtype | backend/src/main/java/com/yitong/guides/web/api/UploadController.java:42-46 | a subtype exactly when the trimmed, lowered main type starts with "image/" |
| UploadApi.Extension | backend/src/main/java/com/yitong/guides/web/api/UploadController.java:33-56 | an empty file and a non-image type are 400; a result is an allowed extension other than jpeg of an image type with a lower-case word subtype; every failure is 400 |
| UploadApi.ExtensionOfSubtype | backend/src/main/java/com/yitong/guides/web/api/UploadController.java:43-55 | no subtype is the images-only 400, a subtype that is not a lower-case word the unsupported-type 400, a word its normalised extension |
| UploadApi.ExtensionOfImageType | backend/src/main/java/com/yitong/guides/web/api/UploadController.java:46-55 | a non-empty file whose type passes the first check is refused with the unsupported-type 400 exactly when its subtype is not a word; otherwise it gets the normalised extension |
| UploadApi.ExtensionOfWord | backend/src/main/java/com/yitong/guides/web/api/UploadController.java:50-55 | a word subtype gives its normalised extension |
| UploadApi.ExtensionOfNonWord | backend/src/main/java/com/yitong/guides/web/api/UploadController.java:47-49 | a subtype that is not a word gives the unsupported-type 400 |
| UploadApi.SecondImageCheckPasses | backend/src/main/java/com/yitong/guides/web/api/UploadController.java:37-45 | once the first image check passes, the second always does |
| UploadApi.Upload | backend/src/main/java/com/yitong/guides/web/api/UploadController.java:33-67 | succeeds exactly when an extension is derived and the file is stored, with URL /uploads/name.ext; the checks' 400 otherwise, and 500 "上传失败" when storing fails |
| UploadApi.UploadedFileIsPublic | backend/src/main/java/com/yitong/guides/security/SecurityConfig.java:40 | every uploaded URL is readable without login |
| UploadApi.PlainImageType | backend/src/main/java/com/yitong/guides/web/api/UploadController.java:37-46 | a plain image/x type passes the first check and has subtype x |
| UploadApi.ExtensionOfPlainType | backend/src/main/java/com/yitong/guides/web/api/UploadController.java:46-55 | a word subtype gives its normalised extension |
| UploadApi.ExtensionRejectsNonWord | backend/src/main/java/com/yitong/guides/web/api/UploadController.java:47-49 | a subtype with a character outside a-z is refused with the unsupported-type 400 |
| UploadApi.FirstCheckIgnoresParameters | backend/src/main/java/com/yitong/guides/web/api/UploadController.java:37-40 | appended parameters do not change the first check |
| UploadApi.SubtypeIgnoresParameters | backend/src/main/java/com/yitong/guides/web/api/UploadController.java:42-46 | parameters after a semicolon do not change the subtype |
| UploadApi.ExtensionIgnoresParameters | backend/src/main/java/com/yitong/guides/web/api/UploadController.java:33-56 | parameters after a semicolon do not change the result |
| UploadApi.SvgAndIconRejected | backend/src/main/java/com/yitong/guides/web/api/UploadController.java:47-49 | svg+xml and x-icon are refused |
| AdminBootstrap.Candidate | backend/src/main/java/com/yitong/guides/bootstrap/AdminInitializer.java:36-45 | the stored account of that name, or a new one with the administrator display name |
| AdminBootstrap.Repaired | backend/src/main/java/com/yitong/guides/bootstrap/AdminInitializer.java:47-59 | role ADMIN, enabled, a matching hash, everything else kept; an account needing no repair is unchanged |
| AdminBootstrap.RunSpec | backend/src/main/java/com/yitong/guides/bootstrap/AdminInitializer.java:35-65 | keeps the user table valid; a failed save changes nothing |
| AdminBootstrap.RunSavesOnlyRepairs | backend/src/main/java/com/yitong/guides/bootstrap/AdminInitializer.java:47-64 | nothing is written when no repair applies; a successful repair changes the table |
| AdminBootstrap.RunCreatesAdmin | backend/src/main/java/com/yitong/guides/bootstrap/AdminInitializer.java:36-64 | with no such account, exactly one ADMIN account "管理员" with the configured password is appended |
| AdminBootstrap.RunRepairsAdmin | backend/src/main/java/com/yitong/guides/bootstrap/AdminInitializer.java:36-64 | afterwards the account is an enabled ADMIN accepting the password, with its status and display name as before |
| AdminBootstrap.RunIdempotent | backend/src/main/java/com/yitong/guides/bootstrap/AdminInitializer.java:47-64 | a second run saves nothing |
| AdminBootstrap.AdminInitializer.constructor | backend/src/main/java/com/yitong/guides/bootstrap/AdminInitializer.java:23-32 | holds the repository, the encoder and the configured credentials |
| AdminBootstrap.AdminInitializer.Run | backend/src/main/java/com/yitong/guides/bootstrap/AdminInitializer.java:35-65 | the table and outcome are those of RunSpec |

## Left out

- Password hashing (BCrypt) and token signing (HMAC-256) are foreign library calls. They are function parameters: `PasswordEncoder(encode, matches)` and `Signer(sign, decode)`. Where a round trip is needed, the lemmas assume it as a precondition (`matches(p, encode(p))`, `decode(sign(c)) == Some(c)`).
- The clock (`Instant.now()`, `LocalDate.now()`) becomes the parameters `now` and `today`.
- Concurrency and transactions are not modelled. The model is sequential, so the check-then-insert races in `follow`, `like`, `favorite` and `upsertCheckIn` do not arise.
- Spring plumbing is not modelled: bean wiring, lazy loading, CORS, CSRF and header configuration, and the mapping from failures to response bodies.
- Page metadata is left out: a page is its list of rows. Among rows with equal sort keys, the order is one fixed choice, whereas the database may choose any.
- `PageRequest.of` argument checking is modelled only as "negative page or size below 1 is an unchecked error".
- GuidesController.List: the `@Min`/`@Max` bounds on `page` and `size` are not enforced. The controller class carries no `@Validated`, so only `PageRequest.of`'s own checks apply; a size above 50 is accepted.
- SQL `LIKE` is modelled as plain substring containment. Wildcards `%` and `_` inside `q` are not interpreted.
- Strings use ASCII case mapping only: `toLowerCase` and `equalsIgnoreCase` are modelled as ASCII operations. `@Size` counts characters, not UTF-16 code units.
- `@NotBlank` is modelled as "non-null with a non-empty trim".
- The request-body checks of the admin endpoints are not enforced, because their bodies have no `@Valid`, and the model passes the values straight through. Consequences:
  - a null status fails on unboxing before the service is reached;
  - a null enabled flag fails after the user lookup;
  - a null password fails inside the encoder.
- Enum binding failures (an unknown category or role in a request) are not modelled.
- `AuthController` (register and login endpoints), `TemplatesController`, `DemoDataInitializer` and `WebMvcConfig` are not part of this model. The service operations behind `register` and `login` are modelled.
- File work in upload is not modelled: the directory, the transfer and the random UUID name. The name is a parameter, and so is whether storing succeeds; its failure is the 500 "上传失败".
- Logging is not modelled: the warning with the administrator credentials in the admin bootstrap and the error logged when an upload fails to store.
- JwtTokens.Verify: the time checks follow java-jwt 4.x, which compares whole seconds, accepts a token from its issue second on and refuses it from its expiry second on. The library version is not part of the modelled sources.
- The guide-favourite entity is not part of this model. The favourites table is given no unique key, and one row per pair is kept by the service's check before insert (`GuideService.Valid`).
- Guide categories (TRAVEL, GAME, STUDY) are taken from the front end's type declarations.
- AdminApi.AdminViewOf: the admin list's branch for a null role is dead, because `getRole()` never returns null. It is modelled as the role read through `getRole()`.
- MeApi.MyCheckins: the null dereference of a record without a day cannot happen on stored rows, because the day column is non-null. Entries keep the day as optional.
- FollowApi.MyFollowing and MeApi.Me show the raw display name, as the source does, not the masked public one.
