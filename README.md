# Receipt splitter core, modelled in Dafny

The application photographs a receipt, reads it with OCR, turns the text
lines into items `{"item": name, "cost": price}`, hands the items out to
friends round robin, and lets the user pick friends in a modal on the client.
This project models the computing core of that pipeline and proves what
it promises.

- `chars.dfy` (module `Chars`): the ASCII character classes of Python's `re`
  (`\d`, `\w`, `\s`), `str.lower()`, `str.strip()` and substring search.
- `receipt.dfy` (module `Receipt`): the `Item` record, `Option` and `Result`,
  the price text `\d+\.\d{2}`, and its value in whole cents. It also holds
  `CollectItems`, the item list that both line loops build from their
  per-line parse.
- `server_parser.dfy` (module `ServerParser`): the post-processor of the
  `server` Flask app. It models `clean_line`, `should_exclude_line` with
  `exclude_keywords`, and `re.findall` / `re.sub` as explicit scans that take
  the leftmost match and never overlap. It also models the line loop, which
  fails with "No valid items found" when no line gives an item.
- `backend_parser.dfy` (module `BackendParser`): the post-processor of the
  `backend` Flask app. It models `re.match(r"(.+?)\s+(\d+\.\d{2})$", line)`
  as a lazy scan. `Decomposes` is the declarative partner of that scan. The
  module also models the line loop, whose result may be empty.
- `assignment.dfy` (module `Assignment`): `assign_items`. The two Flask apps
  have the same code, so it is written once here. A `for` loop is proved
  against the round-robin function `RoundRobin`.
- `friends_modal.dfy` (module `FriendsModal`): the client's `Friend` class
  and the modal's state. Its methods flip `isSelected` in place, toggle the
  friend in the highlighted list, and grow `allFriends` in a loop.
  `Consistent()` is the invariant these methods keep: every fetched friend's
  flag matches whether it is in the highlighted list.

Costs are natural numbers of cents. The OCR text arrives as the sequence of
lines that `text.split("\n")` produces.

## Model

| member | source | states |
|---|---|---|
| Chars.Lower | server/app.py:156 | `line.lower()` has the same length and lower-cases exactly the ASCII capitals |
| Chars.Contains | server/app.py:157 | `keyword in line_lower` is true exactly when the keyword occurs at some position of the line |
| Chars.StripSpec | server/app.py:129 | what `strip()` keeps is a slice of the input with only white space before and after it, and neither of its ends is white space |
| Chars.StripTrailingSpaces | backend/app.py:59 | white space appended to a string is removed by `strip()` |
| Receipt.CollectItems | server/app.py:116-131 | the line loop gives at most one item per line |
| Receipt.CollectItemsConcat | backend/app.py:55-61 | items come out in line order: the items of two blocks of lines are the items of the first block followed by those of the second |
| Receipt.CollectItemsEmptyIff | server/app.py:116-131 | there is no item at all exactly when no line gives one |
| Receipt.Cents | server/app.py:128 | a price `d+.dd` is worth its whole part times 100, plus the two decimals |
| Receipt.FormatCentsRoundTrip | server/app.py:128 | writing a cost with two decimals and reading it back gives the same number of cents |
| ServerParser.CleanLine | server/app.py:151-152 | `clean_line` never lengthens a line and keeps only word characters, white space, `.`, `$` and `,` |
| ServerParser.CleanLineCounts | server/app.py:151-152 | every kept character survives as many times as it occurs; every other character is deleted |
| ServerParser.CleanLineConcat | server/app.py:151-152 | cleaning goes character by character, so the survivors keep their original order |
| ServerParser.CleanLineKeepsKept | server/app.py:151-152 | a line made only of kept characters comes back unchanged |
| ServerParser.CleanLineIdempotent | server/app.py:151-152 | cleaning an already-cleaned line changes nothing |
| ServerParser.AnyOccurs | server/app.py:157 | `any(...)` is true exactly when some keyword occurs in the line |
| ServerParser.ShouldExcludeLineSpec | server/app.py:155-157 | a line is excluded exactly when its lower-cased form contains one of the 17 keywords |
| ServerParser.ExcludesTotalInAnyCase | server/app.py:57-62 | a line containing "total" in any letter case is excluded |
| ServerParser.MatchAt | server/app.py:125 | the match tried at a position ends at `j` exactly when the text from there to `j` is a price; the digit run is greedy, so "1.234" matches "1.23" |
| ServerParser.Spans | server/app.py:125 | the leftmost-first scan finds prices, in order and without overlaps, and no price starts at a position the scan leaves uncovered |
| ServerParser.FindsPriceIff | server/app.py:125-126 | `re.findall` finds something exactly when the line contains a price |
| ServerParser.UnmatchedIsUncovered | server/app.py:129 | `re.sub` deletes exactly the characters of the matches `re.findall` reports, and keeps the rest in order |
| ServerParser.MatchAtPrice | server/app.py:125 | wherever a price starts, the scan's match tried there is exactly that price |
| ServerParser.LastSpanUnique | server/app.py:125-128 | a reported match with no match starting after it is the last one `re.findall` reports |
| ServerParser.ParseLineSpec | server/app.py:120-130 | a cleaned line gives an item exactly when it is not excluded and holds a price; the cost is that of a match `re.findall` reports after which no match starts, which is the last one, `price_matches[-1]` |
| ServerParser.ItemNameWithoutPrices | server/app.py:129 | the item name is the line with every reported price deleted, then stripped |
| ServerParser.CleanLines | server/app.py:112 | every line is replaced by its cleaned form, position by position |
| ServerParser.ParseReceipt | server/app.py:109-141 | the loop collects the items of the cleaned lines in order; an empty collection is the "No valid items found" error, otherwise the items are returned |
| BackendParser.BodyEnd | backend/app.py:57 | `$` matches at the end of the line or just before a final newline |
| BackendParser.TailAt | backend/app.py:57 | `\s+(\d+\.\d{2})$` matches after the name exactly where white space and then a price fill the rest of the line |
| BackendParser.LazyFrom | backend/app.py:57 | the lazy `(.+?)` stops at the shortest name after which the rest of the pattern matches; none is found only when no split of the line fits |
| BackendParser.Match | backend/app.py:57 | a reported match splits the line into a non-empty name without a newline, white space and a final price |
| BackendParser.PriceStartUnique | backend/app.py:57-58 | however a line splits, its price starts at the same position |
| BackendParser.LineItemSpec | backend/app.py:57-61 | a line gives an item exactly when it splits as name, white space and price; the cost is that price, and the name is everything before the white space, stripped |
| BackendParser.NameSpacePriceIsAnItem | backend/app.py:55-61 | there is no keyword filter: any name, a space and a price make an item, e.g. "Total 12.00" |
| BackendParser.ParseReceipt | backend/app.py:53-62 | the loop returns the items of the lines in order; an empty list is a successful result |
| Assignment.RoundRobin | backend/app.py:96-101 | one record per item, in order, with item and cost copied and `assigned_to` set to `friends[i mod len(friends)]` |
| Assignment.UnassignRoundRobin | backend/app.py:97-99 | dropping `assigned_to` from the records gives back exactly the items, in order |
| Assignment.FirstRoundCoversEveryFriend | server/app.py:193 | with at least as many items as friends, friend `j` gets item `j` |
| Assignment.AssignmentRepeats | server/app.py:193 | item `i + len(friends)` goes to the same friend as item `i` |
| Assignment.AssignItems | server/app.py:180-196 | a body without `items` or `friends` is rejected; items with no friends fail on the division by zero; otherwise the result is the round-robin assignment |
| FriendsModal.Friend.constructor | client/app/friendsModal.tsx:32-37 | a new friend has the username, no items, amount 0 and is not selected |
| FriendsModal.Remove | client/app/friendsModal.tsx:63 | filtering removes every occurrence of the friend, adds no one, and keeps every other friend as often as before |
| FriendsModal.RemoveConcat | client/app/friendsModal.tsx:63 | filtering works element by element, so the remaining friends keep their order |
| FriendsModal.RemoveAbsent | client/app/friendsModal.tsx:63 | filtering out a friend who is not in the list changes nothing |
| FriendsModal.RemoveKeepsOrder | client/app/friendsModal.tsx:63 | two friends left by the filter appear in the same order in the original list |
| FriendsModal.Toggle | client/app/friendsModal.tsx:61-65 | after a tap the friend is highlighted exactly when it was not before; every other friend is kept as often as before |
| FriendsModal.ToggleAppends | client/app/friendsModal.tsx:64 | a friend who was not highlighted is appended at the end, and the earlier entries stay as they were |
| FriendsModal.ToggleTwice | client/app/friendsModal.tsx:60-64 | tapping a friend who was not highlighted twice gives back the list exactly |
| FriendsModal.ToggleParity | client/app/friendsModal.tsx:60-64 | after `n` taps, a friend who was not highlighted is appended when `n` is odd, and the list is unchanged when `n` is even |
| FriendsModal.Modal.constructor | client/app/friendsModal.tsx:18-19 | both lists start empty, so every flag agrees with the highlighted list from the start |
| FriendsModal.Modal.FetchFriends | client/app/friendsModal.tsx:31-42 | for each username, in the order received, one fresh unselected friend is appended; earlier friends stay as they were and the flag invariant is kept |
| FriendsModal.Modal.HandleSelectFriend | client/app/friendsModal.tsx:58-67 | the friend's flag is flipped and no other flag changes; the highlighted list is toggled; a consistent state stays consistent |
| FriendsModal.Modal.TapRepeatedly | client/app/friendsModal.tsx:84 | after `n` taps on one friend's card its flag is flipped exactly when `n` is odd, the highlighted list is the list toggled `n` times, and a consistent state stays consistent |
| FriendsModal.Modal.HandleCloseModal | client/app/friendsModal.tsx:76-79 | closing or saving the modal hands the current highlighted list to the caller unchanged |

## Left out

- Image handling and OCR are not modelled: the upload checks, temporary files, OpenCV preprocessing, Tesseract and PIL (server/app.py:68-106, backend/app.py:43-52). These are foreign calls and file I/O. Each parser takes the OCR text as its sequence of lines.
- Lines come from `text.split("\n")`, so they never contain a newline. `BackendParser.BodyEnd` and `Decomposes` still treat a newline as `$` and `.` do.
- Prices are exact cents, not the `float` the apps build with `float(...)`. Binary floating-point rounding is not modelled, and neither is the later `toFixed(2)` on the client.
- Only ASCII is modelled. Outside ASCII, Python's `\w`, `\s`, `\d`, `str.strip()` and `str.lower()` follow Unicode; here every non-ASCII character is outside every class and is left as it is by lower-casing.
- Flask routing, JSON encoding, CORS and HTTP status codes are not modelled. A handler's outcome is a `Result`: `NoValidItems` is the 400 "No valid items found", `InvalidRequestData` the 400 "Invalid request data", and `DivisionByZero` the uncaught `ZeroDivisionError` that makes the request fail.
- The generic `except Exception` answers with 500 in the parse handlers. No modelled step raises, so these answers are not modelled.
- Assignment.AssignItems: a body that is not a JSON object, and items lacking an `item` or `cost` key (a `KeyError`), are not modelled. Requests are typed, and items are `Item` records.
- The logging is left out: `print` in server/app.py (lines 66, 110, 118, 121, 131) and `console.log` in client/app/friendsModal.tsx (lines 23-29, 43-44, 59, 66). It writes to the console only, and nothing modelled depends on it.
- All Venmo client calls are left out, because they are network I/O through a library outside the source: the profile, the friends list and the payment requests.
- React effects, rendering and axios are left out: the asynchronous fetch, the `useEffect`, and `FriendCard`. `FetchFriends` takes the usernames the server returned. The effect depends on `highlightedFriends`, so in the app every tap fetches again and appends every friend once more. That re-run is not modelled, and nothing here claims `allFriends` is free of duplicates.
- FriendsModal.Modal.HandleCloseModal: the parent's callback that receives the list is not modelled, because it lives in client/app/home.tsx, which is not part of this model.
- The other client files are left out: client/app/home.tsx, PhotoPreviewSection.tsx, friendCard.tsx and splitter.tsx hold UI, animation, upload and navigation. src/api.js is a set of thin HTTP wrappers. client/app/types.d.ts gives only the shape of `Item` and `Friend`.
