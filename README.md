# Product catalog demo: a verified model of its client-side logic

The application is a small Next.js/React client with four screens.

- **Signup** checks six form fields. The email and password are checked against two regular expressions. A valid form is appended to the user list kept in the browser's `localStorage`.
- **Login** checks that both fields are present. It searches the stored users for the first exact (email, password) pair and puts that user in the session slot. When no user matches, it clears the form.
- **Dashboard** keeps the product list fetched from a remote catalog. It filters the list by a case-insensitive title search and shows one page of nine items. It deletes a product after confirmation and logs out by emptying the session slot.
- **Pagination** renders one button per page, `1..ceil(n/9)`, and marks the current one.
- **Product card** holds a small edit dialog: open, type, save (the server answers ok or not) and cancel.

The signup page stores the whole form, `confirmPassword` included. A delete removes every product carrying the id, not only the first.

The Dafny project models each of these in the form the code has.

- Pure logic becomes functions and lemmas. This covers the two patterns, the error objects, the search, the filter, the page slice, the first-match search and the page buttons.
- Each component's state becomes a class whose methods are the handlers, with `modifies` clauses and full postconditions about the new state.
- The browser store is a `LocalStore` object with the two entries the application uses: `userData`, the list of users, and `loggedUser`, the session slot.

Files:

| file | module | what it holds |
|---|---|---|
| wrappers.dfy | Wrappers | `Option` |
| storage.dfy | Storage | the stored user record and the two store entries |
| signup.dfy | Signup | the email automaton and its shape, the password policy, the error object, `SignupPage` |
| login.dfy | Login | the presence check, the first-match search, `LoginPage` |
| pagination.dfy | Pagination | the page count, the buttons, the active marker, the click |
| product_card.dfy | ProductCard | `Product`, the edit dialog `Card` |
| dashboard.dfy | Dashboard | filter, search, slice and pages, delete, `DashboardPage` |

## Model

| member | source | states |
|---|---|---|
| Signup.ValidateEmail | app/signup/page.tsx:8-11 | no contract of its own: the email pattern run as a left-to-right automaton; its meaning is stated by Signup.ValidateEmailSpec |
| Signup.ValidateEmailSpec | app/signup/page.tsx:8-11 | the pattern `^[^\s@]+@[^\s@]+\.[^\s@]+$` (run as an automaton) accepts a string iff it is a non-empty `[^\s@]` local part, one '@', and a `[^\s@]` domain holding a '.' that is neither its first nor its last character |
| Signup.ValidEmailParts | app/signup/page.tsx:8-11 | an accepted address has exactly one '@', no whitespace anywhere, a non-empty part before the '@', and a '.' after it that is neither first nor last in the domain |
| Signup.SomeChar | app/signup/page.tsx:13-17 | some character of the password is in the class; this is what one lookahead `(?=.*[class])` tests on strings without line terminators, which the body's class rejects anyway |
| Signup.EveryChar | app/signup/page.tsx:13-17 | the body `[A-Za-z\d@$!%*?&]` matches every character iff each one is in the class |
| Signup.ValidatePassword | app/signup/page.tsx:13-17 | no contract of its own: the four lookaheads, the length and the body class; its meaning is stated by Signup.ValidatePasswordSpec |
| Signup.ValidatePasswordSpec | app/signup/page.tsx:13-17 | the password pattern accepts iff the length is at least 8, every character is a letter, a digit or one of `@$!%*?&`, and there is at least one lowercase, one uppercase, one digit and one symbol |
| Signup.FieldError | app/signup/page.tsx:55-72 | no contract of its own: the message one field's rule sets, in the source's order of checks; its meaning is stated by Signup.SignupErrorsMeaning |
| Signup.SignupErrors | app/signup/page.tsx:55-74 | no contract of its own: the error object, one key per field; its meaning is stated by Signup.SignupErrorsMeaning and Signup.SignupErrorsEmptyIff |
| Signup.SignupErrorsMeaning | app/signup/page.tsx:55-72 | each key of the error object, in terms of the patterns' shapes: an empty email or password gets only the "required" message, never the format message; a non-empty one gets the format message iff it fails its pattern; confirmPassword gets a message iff it differs from the password (two empty fields give none); fullname, gender and mobile get one iff empty |
| Signup.SignupErrorsEmptyIff | app/signup/page.tsx:55-78 | the error object has no keys iff all six rules hold |
| Signup.WithFieldFrame | app/signup/page.tsx:50-53 | handleChange writes the named input and leaves the other five fields alone |
| Signup.SignupPage.constructor | app/signup/page.tsx:39-48 | the form starts as six empty strings and the errors as `{}` |
| Signup.SignupPage.HandleChange | app/signup/page.tsx:50-53 | only the named field of the form changes; the errors stay |
| Signup.SignupPage.ValidateFields | app/signup/page.tsx:55-78 | the errors published are the error object for the current form, and the result is true iff all six rules hold |
| Signup.SignupPage.HandleSubmit | app/signup/page.tsx:81-107 | registers iff every rule holds; then the stored list becomes the old list (absent read as empty) plus the whole form, with no duplicate check, and the form and errors are cleared; otherwise the store is not written and the errors are shown; the session slot never changes |
| Storage.StoredUsers | app/login/page.tsx:53 | no contract of its own: an absent "userData" entry reads as the empty list; used by both pages' submit handlers, whose contracts state the list read |
| Login.LoginErrors | app/login/page.tsx:37-45 | no contract of its own: the presence-only error object; its meaning is stated by Login.LoginErrorsMeaning |
| Login.LoginErrorsMeaning | app/login/page.tsx:37-45 | the error object is empty iff both fields are non-empty, and each key is set iff its own field is empty |
| Login.FirstMatchFrom | app/login/page.tsx:53-57 | the index returned is the first matching user at or after the start, or the list's end when none matches |
| Login.FindUser | app/login/page.tsx:53-57 | the search finds nothing iff no stored user has exactly (case-sensitively) the form's email and password; otherwise it finds the first such user |
| Login.LoginPage.constructor | app/login/page.tsx:19-27 | the form starts empty and the errors show nothing |
| Login.LoginPage.HandleChange | app/login/page.tsx:29-35 | only the named field of the form changes |
| Login.LoginPage.ValidateFields | app/login/page.tsx:37-45 | publishes the presence errors and returns true iff both fields are non-empty |
| Login.LoginPage.HandleSubmit | app/login/page.tsx:47-70 | with a field missing, shows the errors and leaves the session and form as they were; otherwise the first matching user fills the session slot, and when none matches the session is untouched and the form resets to two empty strings; the user list is never written |
| Login.SignupThenLogin | app/login/page.tsx:53-57 | a form that passes the signup rules, once appended, passes the login presence check and is found by the search (as itself when no earlier user has the same pair) |
| Pagination.PageCount | components/Pagination.tsx:18-20 | the button count is 0 iff there are no items, and otherwise the least n with length <= n * itemsPerPage |
| Pagination.PageCountExamples | components/Pagination.tsx:18-20 | 20 items at 9 per page give 3 buttons, 0 give none, 18 give 2, 19 give 3 |
| Pagination.PageButtons | components/Pagination.tsx:18-31 | one button per page, ceil(length / itemsPerPage) of them; labels and the active marker are stated by Pagination.ButtonLabels and Pagination.ActiveButton |
| Pagination.ClickedPage | components/Pagination.tsx:28 | no contract of its own: the label of the button clicked; that it is an offered page is stated by Pagination.ClickSelectsOfferedPage |
| Pagination.ButtonLabels | components/Pagination.tsx:18-31 | there are ceil(length / itemsPerPage) buttons labelled 1..n in increasing order |
| Pagination.ActiveButton | components/Pagination.tsx:23-27 | a button is active iff its label equals the current page, at most one is active, and one is active iff the current page lies in 1..n |
| Pagination.ClickSelectsOfferedPage | components/Pagination.tsx:28 | a click selects a page in 1..n whose first item exists |
| ProductCard.Card.constructor | components/ProductCard.tsx:23-25 | not editing, the dialog closed, the edited title the product's title |
| ProductCard.Card.HandleEdit | components/ProductCard.tsx:27-30 | the dialog opens with the edited title reset to the product's title |
| ProductCard.Card.HandleTitleChange | components/ProductCard.tsx:55-57 | the edited title becomes the typed value, empty or not, and the dialog stays as it was |
| ProductCard.Card.HandleSave | components/ProductCard.tsx:32-48 | sends an update of the product's id with the edited title as it stands; when the server answers ok the dialog closes and editing is off; otherwise the dialog and the unsaved title stay; the product is a constant no handler changes |
| ProductCard.Card.HandleModalClose | components/ProductCard.tsx:50-53 | the dialog closes and the edited title returns to the product's title |
| Dashboard.ToLower | components/Dashboard.tsx:44 | lowercasing keeps the length; ASCII letters only, see Left out |
| Dashboard.Includes | components/Dashboard.tsx:44 | `includes` holds iff the needle occurs at some index of the string |
| Dashboard.FilterProducts | components/Dashboard.tsx:42-46 | the filter never grows the list; which products it keeps, in which order and how often is stated by Dashboard.FilteredProductsSpec |
| Dashboard.FilteredProductsSpec | components/Dashboard.tsx:42-46 | the filtered list is an order-preserving subsequence of the products, holding exactly those whose lowercased title contains the lowercased query, each as many times as it occurs in the products |
| Dashboard.EmptyQueryShowsAll | components/Dashboard.tsx:42-46 | with an empty query the filtered list is the product list |
| Dashboard.SliceBound | components/Dashboard.tsx:50 | a slice bound lands in 0..len, and a non-negative bound is clamped to len |
| Dashboard.Slice | components/Dashboard.tsx:50 | no contract of its own: `slice(begin, end)`, empty when the bounds cross; its meaning for the page is stated by Dashboard.Window |
| Dashboard.Window | components/Dashboard.tsx:50 | `slice(start, start + count)` has at most count items, and for a non-negative start it is the items from start up to start + count, cut at the end of the list |
| Dashboard.PageSlice | components/Dashboard.tsx:48-51 | a page holds at most nine items |
| Dashboard.PageSliceSpec | components/Dashboard.tsx:48-51 | page p >= 1 is `filtered[(p-1)*9 .. min((p-1)*9 + 9, n)]`, and empty once its start index reaches n |
| Dashboard.PagesUpToPrefix | components/Dashboard.tsx:48-51 | pages 1..m concatenated are the items before page m + 1 starts |
| Dashboard.PagesCoverAll | components/Dashboard.tsx:48-51 | pages 1..ceil(n/9) concatenated give exactly the filtered list |
| Dashboard.ItemOnItsPage | components/Dashboard.tsx:48-51 | item i is shown on page i / 9 + 1 at position i % 9 |
| Dashboard.OfferedPageNotEmpty | components/Dashboard.tsx:48-51 | every page a button offers shows at least one item |
| Dashboard.StalePageShowsNothing | components/Dashboard.tsx:24 | a current page past the last one is not clamped: it shows nothing and no button is active |
| Dashboard.RemoveProduct | components/Dashboard.tsx:58 | a delete never grows the list; what it keeps is stated by Dashboard.RemoveProductSpec |
| Dashboard.RemoveProductSpec | components/Dashboard.tsx:58 | a delete keeps, in order, exactly the products whose id differs, every copy of each, and none with the id; an absent id changes nothing |
| Dashboard.DashboardPage.constructor | components/Dashboard.tsx:22-26 | no products, an empty query, page 1 |
| Dashboard.DashboardPage.FilteredProducts | components/Dashboard.tsx:42-46 | the filtered view is a subsequence of the products |
| Dashboard.DashboardPage.PaginatedProducts | components/Dashboard.tsx:48-51 | with the current page at least 1, the page shown is the filtered view from index (currentPage - 1) * 9 up to nine items on, cut at its end, so at most nine products |
| Dashboard.DashboardPage.ReceiveProducts | components/Dashboard.tsx:33-38 | the list becomes the response's products, or the empty list when it has none |
| Dashboard.DashboardPage.HandleSearchChange | components/Dashboard.tsx:94-95 | only the query changes; the current page is not reset |
| Dashboard.DashboardPage.SelectPage | components/Pagination.tsx:28 | a click on button i makes page i + 1 current, which lies in 1..n |
| Dashboard.DashboardPage.HandleDelete | components/Dashboard.tsx:53-60 | when confirmed, sends the delete; once the request completes, whatever its status, every product with that id is removed, and when it fails at the network level the list stays; when declined, nothing is sent and nothing changes; the current page and query never change |
| Dashboard.DashboardPage.HandleEdit | components/Dashboard.tsx:62 | the dashboard's edit callback changes nothing |
| Dashboard.DashboardPage.HandleLogout | components/Dashboard.tsx:72-76 | the session slot becomes empty; the user list stays |

## Left out

- The card's successful save does not change the dashboard's list. The card only sends the update and closes its dialog, and the dashboard's edit callback is empty.
- Network calls (the initial fetch, DELETE, PUT), `await` ordering and double-click races are left out. The fetched list, the server's `ok` and whether the DELETE request completed are inputs. HandleDelete returns the request it sends.
- JSON encoding and decoding, and storage-access failures, are left out. The store holds decoded values. An absent entry reads as absent; a stored non-JSON value is not modelled.
- Rendering, `useMemo` and `useEffect` timing, the router, toasts and `window.confirm` are left out. The confirmation is a boolean input.
- The redirect-on-render effect (components/Dashboard.tsx:65-70) and the welcome name read from the session (components/Dashboard.tsx:30-31) are not modelled.
- The login page's initial errors, `{email: undefined, password: undefined}`, render like `{}`. The model uses one value for both. `Object.keys` of the first has length 2, but only freshly built objects are ever counted.
- Dashboard.LowerChar: `toLowerCase` is modelled for the ASCII letters only. Other letters with a lowercase form are left as they are, so the model's search is case-insensitive for ASCII titles only.
- Strings are sequences of Unicode scalar values, not UTF-16 code units. A password with characters outside the Basic Multilingual Plane is rejected in both, but `.length` and slicing positions inside such characters are not modelled.
- Pagination.PageCount: requires a positive page size. `Math.ceil` of a floating-point quotient is integer ceiling division. The page uses 9. With a page size of 0 the source's `Array.from` would throw for a non-empty list and render no buttons for an empty one.
- `Product.price` is a `real`. Floating-point numbers are not modelled, and the price is never computed with.
