# E-commerce client: validation, session and product list, in Dafny

This project models the logic inside a small React shop client. It has four parts:

- **The form validators.**
  - The add/update product form (`validateForm` in `AddProduct.js`).
  - The registration form (`validate` in `Register.js`).
  - The login form (`validate` in `Login.js`).

  Each validator builds an error object field by field. The form is valid exactly when that object is empty.
- **The session kept by `AuthProvider`** (`AuthContext.js`). It holds:
  - the persisted token slot;
  - the three-valued `isAuthenticated` flag (`null`, `true` or `false`);
  - `loading`;
  - the never-set `productId`.

  The state changes through the mount effect, `login(token)` and `logout()`. Two other pieces drive it:
  - the login screen's successful-answer branch;
  - its sign-out when it arrives at `/login`.
- **The route guard** `ProtectedRoute`. It is a three-way decision: wait, render, or redirect to `/login`.
- **The product listing's `productList`.** A successful load replaces it wholesale. A successful delete removes the items with the deleted `_id`.

## How the model is built

The modules follow the program:

| module | models |
|---|---|
| `Wrappers` | an option type |
| `Text` | the JavaScript string operations the validators rely on |
| `Regex` | a small regular-expression syntax with whole-string matching |
| `Patterns` | the five regular-expression literals the forms use |
| `Http` | a fetch outcome: either a parsed body with its `statusCode`, or a failure that goes to the `catch` |
| `AddProduct`, `Register`, `Login` | one module per form |
| `Auth` | the session provider |
| `Guard` | the route guard |
| `Products` | the product listing |

Regular expressions are transcribed node by node:

- `[a-zA-Z\s]+` becomes `Plus(Class(Union(Union(Range('a','z'), Range('A','Z')), Space)))`.
- A validator calls `Matches(regex, value)` where the source calls `regex.test(value)`.
- Lemmas in `Patterns` then restate each pattern in plain character terms. Examples: "one or more ASCII letters", or "digits, then optionally a `.` and one or two digits".

JavaScript details are modelled as the language defines them:

- `\s` is the full ECMAScript whitespace and line-terminator set, and `\S` is its complement. `\d` is `0`–`9`.
- `.length` counts UTF-16 code units (`Utf16Length`). Characters above U+FFFF count twice.
- Truthiness is spelled out. A string is truthy when it is non-empty. The route's `productId` is truthy when it is present and non-empty.
- `split('.').pop()` is `Last(Split(name, '.'))`.

Each part that changes state in place is a class:

- `AddProductView`, `LoginView`, `AuthProvider` and `ProductList`.
- Each method's postcondition ties the new state to a function of the old one, such as `Auth.Step` or `Products.RemoveById`.
- The properties are proved about those functions.

Each validator is a method that fills a local map, as the source does. Its postcondition says the result equals the error object given by that form's per-field rules. The lemmas then characterise each rule.

## Model

| member | source | states |
|---|---|---|
| Patterns.NameRegex | src/components/product/AddProduct.js:25 | `/^[a-zA-Z\s]+$/` as an expression tree: one or more ASCII letters or whitespace characters |
| Patterns.PriceRegex | src/components/product/AddProduct.js:26 | `/^\d+(\.\d{1,2})?$/` as an expression tree: digits, then optionally `.` and one or two digits |
| Patterns.PersonNameRegex | src/components/auth/Register.js:26-32 | `/^[A-Za-z]+$/` as an expression tree, used for the first and the last name |
| Patterns.EmailRegex | src/components/auth/Register.js:38 | `/^\S+@\S+\.\S+$/` as an expression tree; the login screen uses the same literal |
| Patterns.MobileRegex | src/components/auth/Register.js:50 | `/^\d{10}$/` as an expression tree: exactly ten digits |
| Patterns.NameRegexMeaning | src/components/product/AddProduct.js:25 | `/^[a-zA-Z\s]+$/` accepts exactly the non-empty strings made only of ASCII letters and JavaScript whitespace |
| Patterns.PriceRegexMeaning | src/components/product/AddProduct.js:26 | `/^\d+(\.\d{1,2})?$/` accepts exactly one or more digits, optionally followed by `.` and one or two digits |
| Patterns.PriceAccepted | src/components/product/AddProduct.js:26 | "10" and "10.55" are prices |
| Patterns.PriceRejected | src/components/product/AddProduct.js:26 | "10.", ".5" and "10.555" are not prices |
| Patterns.NameWithSpace | src/components/product/AddProduct.js:25 | "Red Shoe" passes the product-name pattern but not the person-name pattern |
| Patterns.NameRejected | src/components/product/AddProduct.js:25 | the empty string fails both name patterns; "Shoe2" fails the product-name pattern and "Ada2" the person-name one |
| Patterns.PersonNameRegexMeaning | src/components/auth/Register.js:26-32 | `/^[A-Za-z]+$/` accepts exactly the non-empty strings of ASCII letters; spaces are refused |
| Patterns.EmailRegexMeaning | src/components/auth/Register.js:38 | `/^\S+@\S+\.\S+$/` accepts exactly the strings with no whitespace that have an `@` at an index i ≥ 1 and a `.` at an index j with i+2 ≤ j ≤ length−2 |
| Patterns.EmailAccepted | src/components/auth/Register.js:38 | "a@b.com" has the e-mail shape |
| Patterns.EmailRejected | src/components/auth/Register.js:38 | "not-an-email", "@b.com", "a@.com" and "a b@c.de" do not |
| Patterns.MobileRegexMeaning | src/components/auth/Register.js:50 | `/^\d{10}$/` accepts exactly ten ASCII digits |
| Patterns.MobileExamples | src/components/auth/Register.js:50 | a ten-digit number passes; nine digits and a `+91` prefix fail |
| Regex.Matches | src/components/product/AddProduct.js:25-28 | `regex.test(s)` for a pattern anchored with `^` and `$`: the whole of `s` is matched by the expression tree |
| Regex.ClassPlus | src/components/product/AddProduct.js:25 | a character class under `+` accepts exactly the non-empty strings whose every character is in the class |
| Regex.ClassTimes | src/components/auth/Register.js:50 | a character class repeated n times accepts exactly the strings of length n in the class |
| Text.IsSpace | src/components/product/AddProduct.js:25 | `\s`: the ECMAScript white-space and line-terminator code points |
| Text.Truthy | src/components/auth/Register.js:24 | a string is truthy exactly when it is non-empty, so `!value` holds exactly for the empty string |
| Text.AsciiLower | src/components/product/AddProduct.js:44 | `toLowerCase` on ASCII letters, keeping every other character and the length |
| Text.Last | src/components/product/AddProduct.js:44 | `pop()` on the non-empty result of `split`: its last element |
| Text.Split | src/components/product/AddProduct.js:44 | `s.split(sep)`: the pieces between the occurrences of `sep`, always at least one |
| Text.Utf16Length | src/components/auth/Register.js:44 | `.length` lies between the number of code points and twice that number |
| Text.Utf16LengthOfBmp | src/components/auth/Register.js:44 | for text without characters above U+FFFF, `.length` is the number of characters |
| Text.JoinSplit | src/components/product/AddProduct.js:44 | joining the pieces of `split(sep)` with `sep` gives back the string |
| Text.SplitPiecesLackSeparator | src/components/product/AddProduct.js:44 | no piece of `split(sep)` contains `sep` |
| Text.LastPieceOfSplit | src/components/product/AddProduct.js:44 | `split(sep).pop()` is the whole string when `sep` is absent, and otherwise the text after the last `sep` |
| Text.AsciiLowerAt | src/components/product/AddProduct.js:44 | lower-casing maps each character on its own and yields a lower-case letter exactly where there was a letter |
| AddProduct.IsUpdate | src/components/product/AddProduct.js:40 | the form updates a product exactly when the route's `productId` is present and non-empty |
| AddProduct.HasImageExtension | src/components/product/AddProduct.js:45 | `['jpeg', 'png'].includes(extension)` |
| AddProduct.Extension | src/components/product/AddProduct.js:44 | `file.name.split('.').pop().toLowerCase()`; a name without `.` gives the whole name lower-cased |
| AddProduct.FieldError | src/components/product/AddProduct.js:28-56 | the message one key of `newErrors` receives, if any; every message is one of the form's five texts |
| AddProduct.FileError | src/components/product/AddProduct.js:40-56 | "File is required" exactly when adding with no file; the format message exactly when a chosen file is not jpeg or png; nothing for a valid file |
| AddProduct.ProductErrors | src/components/product/AddProduct.js:23-59 | the `newErrors` object: each field's message under its key, every message one of the form's five texts |
| AddProduct.Validate | src/components/product/AddProduct.js:23-59 | the map built step by step is exactly the error object of the four field rules, and the form is valid iff it is empty |
| AddProduct.NameRule | src/components/product/AddProduct.js:25-30 | the name gets "Name should contain only alphabets" iff it is empty or has a character other than an ASCII letter or whitespace |
| AddProduct.PriceRule | src/components/product/AddProduct.js:26-34 | the price gets its message iff it is not digits with an optional one- or two-digit fraction |
| AddProduct.DescriptionRule | src/components/product/AddProduct.js:36-38 | the description is held to exactly the name rule, with its own message |
| AddProduct.FileRule | src/components/product/AddProduct.js:40-56 | adding without a file gives "File is required"; updating without one gives nothing; a chosen file in either mode is refused iff its extension is not jpeg or png |
| AddProduct.ValidIffAllRules | src/components/product/AddProduct.js:23-59 | the product form is valid iff name, price, description and the mode's file rule all hold |
| AddProduct.ExtensionIsAfterLastDot | src/components/product/AddProduct.js:44-51 | the extension is the lower-cased text after the last `.`, or the whole lower-cased name when there is no `.` |
| AddProduct.ExtensionOfLastSegment | src/components/product/AddProduct.js:44-51 | whatever comes before the last `.`, only the text after it decides the extension |
| AddProduct.ImageExamples | src/components/product/AddProduct.js:44-53 | "a.PNG" and a bare "png" count as images |
| AddProduct.JpgIsNotImage | src/components/product/AddProduct.js:44-46 | "a.jpg" does not count as an image |
| AddProduct.LastExtensionDecides | src/components/product/AddProduct.js:44-46 | "photo.png.gif" does not count as an image: only the text after the last `.` counts |
| AddProduct.Changed | src/components/product/AddProduct.js:62-68 | a typed value replaces exactly its own field; a file pick replaces only the file, with the first chosen file or nothing |
| AddProduct.ChangeTouchesOneVerdict | src/components/product/AddProduct.js:23-68 | a change can alter the error of the changed field only |
| AddProduct.AddPayload | src/components/product/AddProduct.js:121-125 | the add body: `name`, `price`, `description` and `file`, in `append` order |
| AddProduct.UpdatePayload | src/components/product/AddProduct.js:161-168 | the update body: the add body when a file is chosen, otherwise the add body without its `file` entry |
| AddProduct.PayloadKeys | src/components/product/AddProduct.js:121-168 | adding sends name, price, description and always file; updating sends the three texts and `file` exactly when a file is chosen |
| AddProduct.SubmittedFormObeysRules | src/components/product/AddProduct.js:106-168 | a form that passed validation has valid texts, a valid file when adding, and only valid files in an update body |
| AddProduct.AddProductView.constructor | src/components/product/AddProduct.js:8-20 | the screen starts with the empty form, no errors and no stored image name |
| AddProduct.AddProductView.RouteEffect | src/components/product/AddProduct.js:70-77 | add mode resets the form and the image name; update mode only requests the details of its `productId` |
| AddProduct.AddProductView.DetailsArrived | src/components/product/AddProduct.js:79-105 | a 200 body fills the texts and the stored image name but never the file, whatever the current route; anything else changes nothing |
| AddProduct.AddProductView.ChangeRoute | src/components/product/AddProduct.js:70-77 | a new `productId` on the mounted screen re-runs the effect for it and keeps `errors`; the same `productId` changes nothing and requests nothing |
| AddProduct.AddProductView.ValidateForm | src/components/product/AddProduct.js:23-59 | the stored errors become the error object, and the verdict is whether it is empty |
| AddProduct.AddProductView.HandleChange | src/components/product/AddProduct.js:62-68 | the form becomes `Changed` of the old form |
| AddProduct.AddProductView.HandleSubmit | src/components/product/AddProduct.js:106-117 | no request when invalid; otherwise the update request for a truthy `productId`, else the add request |
| AddProduct.AddProductView.SubmitResponded | src/components/product/AddProduct.js:142-192 | the request that was sent decides, not the route when the answer arrives: a 201 to an add, or a 200 to an update, empties the form, and the update also clears the image name; any other answer leaves the screen alone |
| AddProduct.DetailsAfterAddLink | src/components/product/AddProduct.js:70-98 | following the add link while an update's details are in flight ends with the add form filled by that product's texts and image name |
| Register.RequiredThen | src/components/auth/Register.js:24-28 | one if/else chain: the "required" message for an empty value, else the format message when the check fails, else nothing |
| Register.RegisterFieldError | src/components/auth/Register.js:24-56 | the message each of the six fields receives, by its own chain; gender has only the "required" check |
| Register.EmailError | src/components/auth/Register.js:36-40 | the e-mail chain: "Email is required", else "Email is invalid" when the pattern fails; the login screen has the same chain |
| Register.PasswordError | src/components/auth/Register.js:42-46 | the password chain: "Password is required", else the length message below six UTF-16 code units; the login screen has the same chain |
| Register.RegisterErrors | src/components/auth/Register.js:24-56 | the `newErrors` object: each of the six fields' messages under its key |
| Register.CheckField | src/components/auth/Register.js:24-52 | one if/else chain records the "required" message for an empty value, else the format message when the check fails, else nothing |
| Register.FieldsInOrder | src/components/auth/Register.js:20-56 | the error object equals what the six chains record one after the other |
| Register.Validate | src/components/auth/Register.js:20-59 | the map built by the six chains is exactly the error object of the six rules, and the form is valid iff it is empty |
| Register.RegisterErrorsAt | src/components/auth/Register.js:24-56 | a field is in the error object exactly when its rule gives a message, and then holds that message |
| Register.RequiredComesFirst | src/components/auth/Register.js:24-56 | an empty field always gets its "... is required" message, never its format message |
| Register.NameRules | src/components/auth/Register.js:24-34 | first and last names are refused iff they are not one or more ASCII letters; the message is "required" for an empty name and "invalid" otherwise |
| Register.EmailRule | src/components/auth/Register.js:36-40 | e-mail: "Email is required" when empty, "Email is invalid" when it lacks the e-mail shape, otherwise accepted |
| Register.PasswordRule | src/components/auth/Register.js:42-46 | password: required, then refused iff shorter than 6 UTF-16 code units; six characters always suffice and one or two never do; no character classes are checked |
| Register.MobileRule | src/components/auth/Register.js:48-52 | mobile is refused iff it is not exactly ten ASCII digits, with the "required" message when empty |
| Register.GenderRule | src/components/auth/Register.js:54-56 | gender is refused iff it is empty |
| Register.RegisterValidIff | src/components/auth/Register.js:58-59 | the registration form is valid iff all six rules hold |
| Login.LoginFieldError | src/components/auth/Login.js:30-40 | the message the e-mail and the password key receive, by Register's two chains; no other key gets one |
| Login.LoginErrors | src/components/auth/Login.js:27-40 | the `newErrors` object: the e-mail and password messages, and no other key |
| Login.StoredText | src/components/auth/Login.js:62-64 | the text `setItem` stores for `data.token`: the token, or "undefined" when it is missing |
| Login.Validate | src/components/auth/Login.js:26-44 | the map built by the two chains is exactly the login error object, and the form is valid iff it is empty |
| Login.LoginErrorsInOrder | src/components/auth/Login.js:26-41 | the login error object is what the e-mail chain and then the password chain record |
| Login.SameRulesAsRegister | src/components/auth/Login.js:30-40 | the login errors are the registration errors restricted to e-mail and password, with the same messages |
| Login.LoginValidIff | src/components/auth/Login.js:42-43 | the login form is valid iff the e-mail has the e-mail shape and the password has at least 6 code units |
| Login.Changed | src/components/auth/Login.js:81-86 | an input's change replaces its own field and keeps the other |
| Login.SuccessKeepsSessionConsistent | src/components/auth/Login.js:61-64 | a successful answer raises the flag, and the flag agrees with the stored slot exactly when the server did not send an empty token; a missing token is stored as "undefined" and counts as signed in |
| Login.LoginView.constructor | src/components/auth/Login.js:19-23 | the screen starts with an empty form and no errors |
| Login.LoginView.OnPath | src/components/auth/Login.js:13-17 | arriving at `/login` performs `logout()`; any other path leaves the session alone |
| Login.LoginView.HandleChange | src/components/auth/Login.js:81-86 | the form becomes `Changed` of the old form |
| Login.LoginView.ValidateForm | src/components/auth/Login.js:26-44 | the stored errors become the login error object, and the verdict is whether it is empty |
| Login.LoginView.HandleSubmit | src/components/auth/Login.js:46-78 | only a valid form whose answer has `statusCode` 200 and a `data` object calls `login` with `data.token`, where a missing token is stored as "undefined"; everything else leaves the session unchanged |
| Auth.HasToken | src/context/AuthContext.js:15 | `!!token`: a stored, non-empty token |
| Auth.Initial | src/context/AuthContext.js:8-10 | the first render: the stored slot, a `null` flag, `loading` true, no `productId` |
| Auth.Step | src/context/AuthContext.js:12-30 | one event's effect: the mount effect, `login(t)` or `logout()`; every event sets the flag, none changes `productId`, and only the mount effect touches `loading` |
| Auth.Run | src/context/AuthContext.js:12-30 | a sequence of events applied in order |
| Auth.InitReadsSlot | src/context/AuthContext.js:12-18 | the mount effect sets the flag to whether a non-empty token is stored, ends loading and keeps the slot |
| Auth.LoginStores | src/context/AuthContext.js:21-24 | `login(t)` stores t and sets the flag to true, leaving `loading` alone |
| Auth.LogoutIdempotent | src/context/AuthContext.js:27-30 | `logout()` clears the slot and sets the flag to false; a second `logout()` changes nothing |
| Auth.RunAppend | src/context/AuthContext.js:12-30 | running two histories one after the other is running their concatenation |
| Auth.LogoutTwiceAfterAnything | src/context/AuthContext.js:27-30 | after any history, two logouts equal one |
| Auth.StepConsistent | src/context/AuthContext.js:12-30 | every event except a login with an empty token keeps a loaded flag in step with the slot |
| Auth.RunConsistent | src/context/AuthContext.js:12-30 | from a consistent state, any history whose logins all carry non-empty tokens stays consistent |
| Auth.SessionConsistent | src/context/AuthContext.js:8-30 | from the first render on, with non-empty login tokens, once loaded the flag is true iff a non-empty token is stored |
| Auth.EmptyLoginDiverges | src/context/AuthContext.js:14-24 | `login("")` sets the flag to true although the stored empty token would read as signed out |
| Auth.LoadingUntilInit | src/context/AuthContext.js:10-18 | `loading` stays true exactly until the mount effect has run |
| Auth.FlagSetByAnyEvent | src/context/AuthContext.js:8-29 | the flag is `null` only while no event has happened |
| Auth.ProductIdNeverSet | src/context/AuthContext.js:9-33 | no event changes `productId` |
| Auth.AuthProvider.constructor | src/context/AuthContext.js:8-10 | the provider starts with a `null` flag, `loading` true, no `productId`, and whatever the slot holds |
| Auth.AuthProvider.Init | src/context/AuthContext.js:12-18 | the mount effect changes the provider as `Step(_, Init)` does |
| Auth.AuthProvider.Login | src/context/AuthContext.js:21-24 | `login(t)` changes the provider as `Step(_, Login(t))` does |
| Auth.AuthProvider.StoreToken | src/components/auth/Login.js:64 | the login screen's own `setItem('token', t)` changes only the slot |
| Auth.AuthProvider.Logout | src/context/AuthContext.js:27-30 | `logout()` changes the provider as `Step(_, Logout)` does |
| Guard.Decide | src/components/ProtectedRoute.js:8-12 | exactly one outcome: Loading iff loading or the flag is `null`; Render iff loaded and the flag is true; Redirect iff loaded and the flag is false, always to `/login` |
| Guard.WaitsUntilInit | src/components/ProtectedRoute.js:8-10 | before the mount effect the guard waits, never redirects |
| Guard.DecidedByToken | src/components/ProtectedRoute.js:8-12 | after the mount effect, with non-empty login tokens, the guard renders iff a non-empty token is stored and redirects to `/login` otherwise |
| Guard.RedirectsAfterLogout | src/components/ProtectedRoute.js:12 | right after `logout()` on a loaded provider, the guard redirects to `/login` |
| Products.RemoveById | src/components/product/Products.js:60 | the filter keeps exactly the items whose `_id` differs from the deleted id, and never lengthens the list |
| Products.RemoveDistributes | src/components/product/Products.js:60 | filtering a concatenation filters each part in place, so survivors keep their order |
| Products.RemoveAbsent | src/components/product/Products.js:60 | deleting an id no item carries leaves the list unchanged |
| Products.RemoveIdempotent | src/components/product/Products.js:60 | deleting the same id twice equals deleting it once |
| Products.RemoveCount | src/components/product/Products.js:60 | the list shrinks by exactly the number of items with that id |
| Products.RemoveCommutes | src/components/product/Products.js:60 | two deletes give the same list in either order |
| Products.ProductList.constructor | src/components/product/Products.js:9 | the list starts empty |
| Products.ProductList.Load | src/components/product/Products.js:11-33 | a body with `statusCode` 200 replaces the list with its data; any other answer or a failure keeps it |
| Products.ProductList.HandleDeleteFromSnapshot | src/components/product/Products.js:43-67 | as written: a 200 sets the list to the filter of the list captured when the button was clicked; anything else keeps the list |
| Products.ProductList.HandleDelete | src/components/product/Products.js:43-67 | corrected: a 200 removes exactly the items with that id from the current list; anything else keeps the list |
| Products.OverlappingDeletesFromSnapshot | src/components/product/Products.js:43-67 | as written, two deletes clicked on the same render leave only the second one's effect |
| Products.OverlappingDeletes | src/components/product/Products.js:43-67 | corrected, two deletes compose their filters |
| Products.SnapshotResurrectsFirstDelete | src/components/product/Products.js:59-61 | for a list [one, two], the as-written second answer brings `one` back, while the corrected one leaves it removed |
| Products.OverlappingDeletesRemoveBoth | src/components/product/Products.js:59-61 | corrected, after both deletes exactly the items with neither id remain, whichever answer comes first |

## Findings

| source | as written | input that shows it | evidently intended | confidence | as-written member | corrected member |
|---|---|---|---|---|---|---|
| src/components/product/Products.js:60-61 | `handleDelete` filters `productList` as captured by the render whose Delete button was clicked, then sets that as the list | the list is [A, B]; Delete A and Delete B are both clicked before A's answer arrives; both answers are 200; A's answer arrives first, then B's; the final list is [A] although A is deleted on the server (in the other answer order it is [B]) | each answer filters the list current when it arrives (`setProductList(prev => prev.filter(...))`), leaving [] | medium, not executed | Products.ProductList.HandleDeleteFromSnapshot, Products.OverlappingDeletesFromSnapshot, Products.SnapshotResurrectsFirstDelete | Products.ProductList.HandleDelete, Products.OverlappingDeletes, Products.OverlappingDeletesRemoveBoth |

## Left out

- Network I/O is not modelled: the `fetch` calls, the endpoints, JSON parsing and the multipart `FormData` encoding. Each answer is a parameter, either `Failed` (the `catch` branch) or the parsed `statusCode` with its data. The product screens throw on `!response.ok`, so an HTTP error status is `Failed` there. The login and register screens never look at `response.ok`, so an HTTP error status whose JSON body parses is `Received` with that body's `statusCode`. A payload is its list of `append` entries.
- UI side effects and timing are not modelled: toasts, `console.error`, `setTimeout`, `navigate` and `isSubmitting` with its button caption. The `setTimeout` delay before the form reset after adding a product is dropped.
- Nothing rendered is modelled: JSX, react-bootstrap, react-router (`useParams`, `Navigate`) and `useContext`. The guard's outcome is a `Decision` value.
- `src/components/layout/Header.js` and `src/App.js` are not part of this model. They are presentation and a route table.
- React schedules state updates and effects; the model applies them at once, in the order given.
  - `Auth.Run` accepts any order of events, so it covers the order React actually uses, where the login screen's effect can run before the provider's mount effect.
  - Batching of several updates in one render is not modelled.
- `localStorage` is the single `token` field of the provider, `None` when the key is absent.
  - `Login.LoginView.HandleSubmit` writes that field again after `login`, through `Auth.AuthProvider.StoreToken`, as the source calls `setItem` twice.
  - That the slot outlives a reload is expressed only by `Auth.Initial` taking the stored value.
- `toLowerCase` is modelled on ASCII letters only. For the jpeg/png comparison this is exact: a non-ASCII character can only lower-case to one of those letters through KELVIN SIGN to `k` or U+0130, and neither letter appears in "jpeg" or "png".
- Values from the server are taken to be strings. This covers the product fields loaded for an update and the listed products; a numeric `price` is not distinguished from its text.
- The login answer's `data.token` is taken as text. A missing token becomes the text "undefined", and a non-string token is not modelled.
- `fileInputRef.current.value = ''` is not modelled; it clears the browser's file input widget, not the form state.
- `handleUpdate` in the product listing is not modelled; it only navigates.
- The registration screen's `handleSubmit`, `handleChange` and `errors` state are not modelled. They are the same shape as the login screen's, and only `validate` belongs to this model.
- Register.Validate evaluates each field's format check before its if/else chain rather than only when the value is non-empty. The checks are pure, so the recorded messages are the same.
