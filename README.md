# live-server login and upload controllers, modelled in Dafny

This project models the logic in two Spring MVC controllers of the live-streaming
platform's back end.

- **IndexController** holds the global URL mappings:
  - the main page, the redirect to the login page and logout;
  - the form login page, which turns the name of the failed exception class into an error banner;
  - the ajax login, which runs the security layer's login on trimmed credentials and maps exceptions to messages through an ordered catch chain;
  - the ajax login's session binding: a user is bound under two session keys only if none is bound yet, and on every success the user's last-login time and address are stamped and the user is saved once;
  - the upload download handler, which removes the public upload prefix from the request URI and joins the rest onto the storage root.
- **LiveCategoryController** holds the category page, the next serial number (a maximum of 0 is reported as 1) and the first checks of adding a category (no file means an upload failure; a null or zero flag disables the category).

Files and modules:

- `wrappers.dfy` (`Wrappers`): Option, standing in for a Java reference that may be null.
- `response_model.dfy` (`ResponseModels`): the mutable `ResponseModel`. Its status starts unset, and `success`/`error` set it, with or without a message. There is also a value snapshot `Response` that is used to specify replies.
- `auth_errors.dfy` (`AuthErrors`):
  - the exception kinds, as a closed datatype;
  - the form path's exact-name table;
  - the ajax path's catch chain, as a sequence of clauses searched in order;
  - lemmas on where the two tables agree and where they differ.
- `upload_paths.dfy` (`UploadPaths`):
  - `replaceFirst` as literal first-occurrence removal;
  - `Paths.get` as the Unix file system's join and normalisation;
  - the whole download resolution, with lemmas about the path's names (segments).
- `index_controller.dfy` (`IndexController`):
  - `StringUtils.trim`, the user record and the `User` object;
  - the store look-up and save;
  - the `Controller` class, whose fields are the session attribute map, the store, a look-up counter and a log of saves, and whose methods are the ajax login, logout and the main page.
- `live_category_controller.dfy` (`LiveCategoryController`): the category handlers.
- `IndexController.LoginTwice` is a client method with no contract of its own. It proves that two logins in one session look the user up once but stamp and save the user twice.
- `IndexController.LoginThroughRealm` is another client method. It proves that when the login realm binds the user itself, the store is not asked and the realm's user is stamped.
- `IndexController.CachedLoginKeepsBoundUser` and `IndexController.FailedLoginKeepsRealmUser` are client methods for the two cases below.

Behaviour of the code that is easy to misread, and that the model keeps:

- There is no single error classification. The form login and the ajax login each have their own table, and they differ:
  - `ExcessiveAttemptsException`: the form gives "认证用户错误"; ajax gives the exception's own message.
  - The base `AuthenticationException`: the form gives "用户名/密码错误"; ajax gives "登录认证错误".
  - Any other class: the form gives "认证用户错误"; ajax gives "登录认证错误", or "服务器忙" for non-authentication exceptions.
- The download handler does not only strip a leading prefix: `replaceFirst` removes the first occurrence of the prefix wherever it stands. Nothing checks that the result stays under the storage root. `TraversalNotRejected` and `DownloadKeepsSegments` show that `..` reaches the resolved location.
- The controller does not reject an empty username. It hands every token to the security layer, which is an input here.
- All user-facing messages are the Chinese texts above.
- A cached login in a session where some user A is already bound succeeds whatever username the request names. A stays bound, and A is the user stamped and saved (`CachedLoginKeepsBoundUser`).
- The login realm loads and binds the user before the credentials are matched. A login that then fails with "用户名/密码错误" can therefore leave that user bound, and a later cached login in the same session reuses it (`FailedLoginKeepsRealmUser`).

## Model

| member | source | states |
|---|---|---|
| AuthErrors.FormLogin | src/main/java/org/live/common/web/controller/IndexController.java:89-110 | view is always "login"; no errorMessage exactly when the failure attribute is null; the exact names of UnknownAccount, IncorrectCredentials and base AuthenticationException give "用户名/密码错误", LockedAccount gives "账号被锁定", every other name gives "认证用户错误" |
| AuthErrors.FormMatchingIgnoresSubclasses | src/main/java/org/live/common/web/controller/IndexController.java:95-106 | ExcessiveAttemptsException is an AuthenticationException, yet its name gives "认证用户错误" while the base class's name gives "用户名/密码错误" |
| AuthErrors.FirstCatch | src/main/java/org/live/common/web/controller/IndexController.java:136-153 | the clause the JVM picks: the returned clause matches, no earlier clause matches, and None exactly when no clause matches |
| AuthErrors.ClassName | src/main/java/org/live/common/web/controller/IndexController.java:95-101 | Class.getName(): one of the five named classes exactly for the five named kinds |
| AuthErrors.InstanceOf | src/main/java/org/live/common/web/controller/IndexController.java:136-153 | instanceof for each catch clause: a named clause matches only its own kind, AuthenticationException every authentication kind, Exception every kind; FirstCatch and AjaxCatchIndex build on it |
| AuthErrors.AjaxCatchIndex | src/main/java/org/live/common/web/controller/IndexController.java:136-153 | every exception kind is caught, by the clause listed for it; catch (Exception) catches whatever the earlier clauses miss |
| AuthErrors.AjaxErrorMessage | src/main/java/org/live/common/web/controller/IndexController.java:136-153 | unknown and incorrect give "用户名/密码错误", excessive attempts gives its own message verbatim (null included), locked gives "账号被锁定", other authentication errors give "登录认证错误", any other exception gives "服务器忙" |
| AuthErrors.AjaxCatchOrderDecides | src/main/java/org/live/common/web/controller/IndexController.java:142-149 | excessive-attempts and locked exceptions are AuthenticationExceptions but are caught by their own earlier clauses |
| AuthErrors.TablesCompared | src/main/java/org/live/common/web/controller/IndexController.java:92-153 | the two tables agree on unknown, incorrect and locked, and differ on excessive attempts, the base class, other subclasses and non-authentication exceptions |
| UploadPaths.FindFirst | src/main/java/org/live/common/web/controller/IndexController.java:184 | the earliest index at which the prefix occurs, or None exactly when it occurs nowhere |
| UploadPaths.RemoveFirst | src/main/java/org/live/common/web/controller/IndexController.java:184 | without an occurrence the URI is unchanged; otherwise exactly the first occurrence is cut out, wherever it stands |
| UploadPaths.LeadingPrefixStripped | src/main/java/org/live/common/web/controller/IndexController.java:184 | a URI that starts with the prefix loses exactly that prefix |
| UploadPaths.PrefixRemovedInTheMiddle | src/main/java/org/live/common/web/controller/IndexController.java:184 | "/app/upload/a.png" loses "/upload" in the middle, giving "/app/a.png" |
| UploadPaths.AbsentPrefixKeepsUri | src/main/java/org/live/common/web/controller/IndexController.java:184 | example: "/img/a.png" contains no "/upload" and is used unchanged (the general fact is the first ensures of RemoveFirst) |
| UploadPaths.JoinPath | src/main/java/org/live/common/web/controller/IndexController.java:185 | getPath(first, more) puts one "/" between the root and the remainder unless either is empty; SegmentsOfJoin states that the names are concatenated |
| UploadPaths.CollapseSlashes | src/main/java/org/live/common/web/controller/IndexController.java:185 | UnixPath drops every slash that follows another slash; never longer than its input, and CollapseFacts gives the kept ends and the absence of "//" |
| UploadPaths.Normalize | src/main/java/org/live/common/web/controller/IndexController.java:185 | UnixPath's normal form: slashes collapsed and a trailing slash dropped unless the path is "/"; NormalizeCanonical and SegmentsOfNormalize state its properties |
| UploadPaths.PathsGet | src/main/java/org/live/common/web/controller/IndexController.java:185 | Paths.get fails (InvalidPathException) when the joined path contains a NUL character, and otherwise gives its normal form; unencodable characters are left out |
| UploadPaths.NormalizeCanonical | src/main/java/org/live/common/web/controller/IndexController.java:185 | the normalised path has no doubled slash, no trailing slash unless it is "/", is empty only for the empty path, and starts with the input's first character, so an absolute path stays absolute |
| UploadPaths.CollapseFacts | src/main/java/org/live/common/web/controller/IndexController.java:185 | collapsing slashes keeps the first and last character and leaves no doubled slash |
| UploadPaths.SegmentsOfJoin | src/main/java/org/live/common/web/controller/IndexController.java:185 | joining root and remainder concatenates their names |
| UploadPaths.SegmentsOfNormalize | src/main/java/org/live/common/web/controller/IndexController.java:185 | normalisation keeps the names of a path; ".." is not resolved |
| UploadPaths.ResolveDownload | src/main/java/org/live/common/web/controller/IndexController.java:173-190 | null when the prefix setting is missing or the path is invalid (the handler catches and returns null); otherwise "file:" followed by the normalised join of the root and the URI with its first prefix occurrence removed |
| UploadPaths.DownloadKeepsSegments | src/main/java/org/live/common/web/controller/IndexController.java:182-185 | the location's names are the root's names followed by the remainder's, so a ".." in the URI survives; there is no containment check |
| UploadPaths.ResolveUnderRoot | src/main/java/org/live/common/web/controller/IndexController.java:182-185 | a URI made of the prefix and a clean remainder resolves to the root followed by that remainder |
| UploadPaths.ResolveExample | src/main/java/org/live/common/web/controller/IndexController.java:182-185 | "/upload/images/a.png" with root "/data/files" resolves to "file:/data/files/images/a.png" |
| UploadPaths.TraversalNotRejected | src/main/java/org/live/common/web/controller/IndexController.java:182-185 | "/upload/../../etc/passwd" resolves to "file:/data/files/../../etc/passwd" and is not rejected |
| IndexController.Trim | src/main/java/org/live/common/web/controller/IndexController.java:121 | StringUtils.trim of a non-null credential: leading blanks, then trailing blanks, are dropped; TrimFacts states what is kept |
| IndexController.TrimFacts | src/main/java/org/live/common/web/controller/IndexController.java:121 | the result is the contiguous middle slice of the input with only blanks (up to U+0020) before and after it; it starts and ends with non-blank characters, keeps every non-blank character, and a string already without end blanks is unchanged |
| IndexController.TrimIdempotent | src/main/java/org/live/common/web/controller/IndexController.java:121 | trimming the token's credentials twice changes nothing more |
| IndexController.Lookup | src/main/java/org/live/common/web/controller/IndexController.java:128 | findByUsername as a filter of the store in query order; LookupMembers and LookupFirst state its properties |
| IndexController.LookupMembers | src/main/java/org/live/common/web/controller/IndexController.java:128 | findByUsername returns exactly the stored records with that exact, untrimmed username |
| IndexController.LookupFirst | src/main/java/org/live/common/web/controller/IndexController.java:128 | get(0) of the look-up is the earliest stored record with that username |
| IndexController.Upsert | src/main/java/org/live/common/web/controller/IndexController.java:134 | save as a write-through: the stored record with the same id is dropped and the saved one is appended, so it moves to the end of the query order; UpsertMembers states what the store holds |
| IndexController.UpsertMembers | src/main/java/org/live/common/web/controller/IndexController.java:134 | after save the store holds the saved record and every record with another id, and nothing else |
| IndexController.User.SetLastLoginTime | src/main/java/org/live/common/web/controller/IndexController.java:132 | setLastLoginTime changes the last-login time and no other field |
| IndexController.User.SetLastLoginIp | src/main/java/org/live/common/web/controller/IndexController.java:133 | setLastLoginIp changes the last-login address and no other field |
| IndexController.AjaxReply | src/main/java/org/live/common/web/controller/IndexController.java:119-155 | every call sets exactly one of success or error and no data; success, with "登录成功", exactly when login returned and a user was bound once it returned or was found; a thrown login gives the catch chain's message; a failed cast or an empty look-up gives "服务器忙"; the message is null only for an excessive-attempts exception whose own message is null |
| IndexController.BadCredentialsIndistinguishable | src/main/java/org/live/common/web/controller/IndexController.java:136-141 | an unknown account and a wrong password give the same reply, "用户名/密码错误" |
| IndexController.AjaxRepliesListed | src/main/java/org/live/common/web/controller/IndexController.java:135-153 | every reply message is one of the fixed texts or, for excessive attempts, the exception's own (possibly null) message |
| IndexController.Controller.RealmBind | src/main/java/org/live/common/web/controller/IndexController.java:123-127 | the login realm's own binding: a fresh user loaded from its record is bound under the current-user key and nothing else in the session changes |
| IndexController.Controller.AjaxLogin | src/main/java/org/live/common/web/controller/IndexController.java:117-155 | the login sees the trimmed token, and the binding is read after it returns. The reply is AjaxReply of the outcome and that binding. The store is asked once, only when the login returned and nothing was bound even after it. On a failure the controller itself writes nothing: the store is untouched, and the session changes only by the realm's own binding. A user bound before the call is left as it was unless it is the one stamped. A success stamps the bound or newly found user's last-login time and address and saves it exactly once. When the realm bound a user, that user is the one stamped and the store is not asked. When a user was already bound and the realm did not bind one, the session is not written. When nothing was bound, the first record for the untrimmed username is bound under the current-user and user-type keys |
| IndexController.Controller.AfterLogin | src/main/java/org/live/common/web/controller/IndexController.java:125-135 | the part after subject.login; a failure here happens only when no user was bound, and then nothing is written |
| IndexController.Controller.BindFromStore | src/main/java/org/live/common/web/controller/IndexController.java:126-131 | one look-up; an empty result binds nothing; otherwise a fresh user loaded from the first record is bound under both keys |
| IndexController.Controller.StampAndSave | src/main/java/org/live/common/web/controller/IndexController.java:132-134 | last-login time and address set, nothing else in the record changed, saved once |
| IndexController.Controller.FindByUsername | src/main/java/org/live/common/web/controller/IndexController.java:128 | returns the look-up and counts one query |
| IndexController.Controller.Save | src/main/java/org/live/common/web/controller/IndexController.java:134 | write-through of the user's record, logged once |
| IndexController.Controller.Logout | src/main/java/org/live/common/web/controller/IndexController.java:161-165 | the session is dropped, so no user is bound afterwards; the reply is "redirect:/login" |
| IndexController.Controller.MainPage | src/main/java/org/live/common/web/controller/IndexController.java:61-73 | "common/main" whether or not a user is bound; no view (the uncaught ClassCastException) exactly when the current-user attribute is not a User |
| IndexController.ToLogin | src/main/java/org/live/common/web/controller/IndexController.java:79-82 | always "redirect:/login", the target logout also answers with |
| LiveCategoryController.ToRoomCategory | src/main/java/org/live/live/controller/LiveCategoryController.java:39-49 | always "live/category" |
| LiveCategoryController.ReportedSerialNo | src/main/java/org/live/live/controller/LiveCategoryController.java:57 | never 0; a nonzero maximum is reported unchanged |
| LiveCategoryController.SerialNoReply | src/main/java/org/live/live/controller/LiveCategoryController.java:53-65 | success exactly when the service returned a non-null number, with that number (0 replaced by 1) as data; a throwing service or a null result marks error with no data; no message either way |
| LiveCategoryController.SerialNoNeverZero | src/main/java/org/live/live/controller/LiveCategoryController.java:56-59 | a successful reply never carries 0, and a maximum of 0 is reported as 1 |
| LiveCategoryController.FindMaxSerialNo | src/main/java/org/live/live/controller/LiveCategoryController.java:51-65 | the built reply is SerialNoReply of the service's answer |
| LiveCategoryController.EnabledAfter | src/main/java/org/live/live/controller/LiveCategoryController.java:86 | a null or zero flag forces enabled to false; any other flag leaves the bound value |
| LiveCategoryController.AddCategoryReply | src/main/java/org/live/live/controller/LiveCategoryController.java:78-84 | without a file: error with "上传失败" and no data; with a file: the reply is never marked |
| LiveCategoryController.AddLiveCategory | src/main/java/org/live/live/controller/LiveCategoryController.java:74-100 | without a file the category is untouched; with one, only enabled changes, as EnabledAfter says; the reply is AddCategoryReply |

## Left out

- Shiro's login itself is not modelled: realms, caching, credential matching, lock-out and attempt counting. The login is an input function from the token. It returns or throws an exception of some kind whose message may be null. Either way it names the record the login realm bound under the current-user key, or none when the realm's cache answered.
- The login realm is not part of this model. Its binding is taken to write only the current-user key.
- The exception hierarchy is closed. A class carried by `OtherAuthentication` is taken to be no subclass of the four classes the controller names.
- `NonAuthentication` stands for subclasses of `java.lang.Exception` only. A `java.lang.Error` thrown by the login escapes every catch clause; it has no kind here.
- The user, menu and category services are not modelled. The user store is a sequence of records. `findByUsername` filters it in order. `save` drops the record with the same id and appends the saved one, so a saved record moves to the end of the query order. The store never throws.
- `main` is not modelled beyond its view and its failed cast. It builds the sidebar with `MenuTreeUtils` and stores it as a request attribute. Its unused read and cast from the security session reads the same attribute map, so it adds nothing.
- `HttpServletUtils.getIpAddr` and `new Date()` are parameters (`ip`, `now`), because the forwarded-header logic is not shown and the clock is outside the model.
- `ServletContextHolder` settings are parameters. The upload root is taken as a non-null string, so a missing root setting is not modelled; a missing prefix setting is. `addLiveCategory`'s read of the upload directory and its debug log are left out.
- `ResourceLoader`, `ResponseEntity` and file streaming are left out. The model returns the location string handed to the loader.
- UploadPaths.PathsGet: only the NUL character makes it fail. The InvalidPathException that `UnixPath.encode` raises for a character the JVM's native charset cannot encode (for example a non-ASCII root under a POSIX locale) is not modelled, because the charset is platform configuration.
- UploadPaths.ResolveDownload: requires a prefix without regular-expression metacharacters, because Java's full regular-expression semantics of `replaceFirst` are not modelled.
- Null `username` or `password` request parameters are not modelled. The credentials are strings.
- A Dafny `string` is a sequence of Unicode scalar values, while a Java `String` is a sequence of UTF-16 code units. The two differ only for lone surrogates, which `trim` and `replaceFirst` would handle unit by unit; those are not modelled.
- The security layer's session and the servlet session are one attribute map. Attribute values are either a `User` or a string.
- `SimpleResponseModel` is not part of this model. `success()` and `error()` without arguments are taken to set only the status.
- `LiveCategory` and `User` are not part of this model beyond the fields used. A category's `enabled` is a `bool`, and the user type is a string.
- Serial numbers are unbounded integers. The handlers do no arithmetic on them, so 32-bit width does not matter.
- Logging, HTTP plumbing, multipart upload handling and concurrent requests on one session are not modelled.
