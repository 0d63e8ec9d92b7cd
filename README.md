# Document-list cache of the NoteOCR client

This project models the client-side cache of the user's documents in the NoteOCR mobile app. The app photographs a page, sends it to a server for OCR, and lists the resulting Word documents. The cache exists in two iterations of the app, and the model covers both:

- **Current iteration** (`context/DocumentsContext.tsx`, module `DocumentsContext`): a provider holding `documents` and `loading`. Its operations:
  - `refresh` re-fetches the signed-in user's list.
  - `addLocal` prepends a freshly recognised document, then refreshes.
  - `rename` renames optimistically, rolls back to its snapshot when the request throws, then refreshes.
  - `remove` deletes optimistically and rolls back when the request throws.
- **Older iteration** (`app/context/DocumentsContext.tsx`, module `AppDocumentsContext`): a provider holding only `documents`. Its operations:
  - `fetchDocuments` stores the server's list reversed in place, newest first.
  - `addDocument` prepends locally.

The module `Documents` holds what both iterations share:
- the `DocumentItem` record;
- the network outcomes;
- the requests the cache sends;
- the pure list transforms the current iteration applies: `find`, the renaming `map` and the deleting `filter`.

How the environment is modelled:
- **Network calls.** Each call becomes an input value. A `GET` ends in `ListThrows`, `ListNotOk(data)` or `ListOk(data)`. A `PATCH` or `DELETE` ends in `Throws`, `NotOk` or `Ok`.
- **Requests.** Every operation returns the requests it sends, in order. So "no request is made" becomes `requests == []`.
- **Signed-in user.** An `Option<UserId>`, passed as a parameter.
- **React state setters.** `setDocuments` and `setLoading` are methods that assign the field. They also append the value to a ghost log (`documentsWrites`, `loadingWrites`). Through the logs, a contract can state the optimistic write, the rollback and `loading` being switched on and then off, even when a later write overwrites them.
- **Un-awaited `refresh()`.** `addLocal` and `rename` start `refresh()` without awaiting it. The model runs it to completion straight after them, with its own outcome as an extra parameter.

How failures are handled, as the code does it:
- `rename` and `remove` roll back only when the request throws (context/DocumentsContext.tsx:103-105, 143-145). A non-ok response only logs a warning and keeps the optimistic list (lines 102, 142).
- `rename` both rolls back and refreshes (line 108). `remove` never refreshes.
- The older `fetchDocuments` never tests `res.ok` (app/context/DocumentsContext.tsx:33-35). A non-ok response whose body decodes to a list is reversed and stored like an ok one.

## Model

| member | source | states |
|---|---|---|
| `Documents.FindByIdSpec` | context/DocumentsContext.tsx:115 | `FindById` returns nothing exactly when no item has the id; otherwise it returns the first item that has it |
| `Documents.RenameAllSpec` | context/DocumentsContext.tsx:91-93 | `RenameAll` keeps length and order; every item with the id gets the new name and keeps all its other fields; items with other ids are unchanged |
| `Documents.RemoveAllSpec` | context/DocumentsContext.tsx:130 | no item of `RemoveAll`'s result has the id; the result is a subsequence of the input (order kept); every item with another id keeps its multiplicity |
| `Documents.RemoveAllAbsent` | context/DocumentsContext.tsx:115-130 | when `find` finds nothing, the filter is the identity, so the early return agrees with the filter |
| `Documents.RemoveAllShrinks` | context/DocumentsContext.tsx:115-130 | the filter never lengthens the list, and it shortens it exactly when `find` finds an item with the id |
| `Documents.RenameAllAbsent` | context/DocumentsContext.tsx:91-93 | renaming an id that no item has leaves the list unchanged |
| `Documents.FindAfterRename` | context/DocumentsContext.tsx:91-93 | after the rename, `find` on the id returns the first match it returned before, with the new name, and still returns nothing if there was no match |
| `Documents.RemoveAfterRename` | context/DocumentsContext.tsx:87-146 | a `rename` of an id followed by a `remove` of the same id, with neither request throwing and no refresh replacing the list, leaves the list `remove` alone would have left: the rename keeps every id, so the filter drops the same items |
| `Documents.RenameRemoveCommute` | context/DocumentsContext.tsx:87-146 | a `rename` of one document and a `remove` of another (or the same), run in either order with neither request throwing and no refresh replacing the list, leave the same list |
| `Documents.RenameAllIdempotent` | context/DocumentsContext.tsx:91-102 | a `rename` retried with the same name after a non-ok response (which keeps the optimistic list, line 102), with no refresh replacing that list (no user signed in, or the refresh's `GET` throws), writes the same list again, so the retry's optimistic step changes nothing; in general, renaming twice to the same name is renaming once |
| `Documents.RemoveAllIdempotent` | context/DocumentsContext.tsx:115-142 | after a `remove` whose request does not throw (an ok or non-ok response keeps the filtered list), `find` no longer finds the id, so a second `remove` of it returns early and sends nothing; filtering twice is filtering once |
| `DocumentsContext.DocumentsProvider.constructor` | context/DocumentsContext.tsx:47-48 | the cache starts with an empty list, with `loading` off and nothing written yet |
| `DocumentsContext.DocumentsProvider.SetDocuments` | context/DocumentsContext.tsx:47 | the `documents` setter stores the value and logs the write; nothing else changes |
| `DocumentsContext.DocumentsProvider.SetLoading` | context/DocumentsContext.tsx:48 | the `loading` setter stores the value and logs the write; nothing else changes |
| `DocumentsContext.DocumentsProvider.Refresh` | context/DocumentsContext.tsx:54-72 | with no user: no request and no write, and `documents` and `loading` unchanged. With a user: one `GET` for that user; `loading` written true and then false; the fetched list replaces `documents` whether the response is ok or not; a throw leaves `documents` unchanged |
| `DocumentsContext.DocumentsProvider.AddLocal` | context/DocumentsContext.tsx:77-82 | first writes `[doc] + old documents` (the document at index 0, the previous list after it in order), then has exactly the effects of `refresh` on that list |
| `DocumentsContext.DocumentsProvider.Rename` | context/DocumentsContext.tsx:87-109 | the first write is the renamed list and the first request is the `PATCH`; only a throwing request writes the entry snapshot back (a non-ok response keeps the optimistic list); `refresh` then runs in every outcome, on the list left behind |
| `DocumentsContext.DocumentsProvider.Remove` | context/DocumentsContext.tsx:114-152 | when no item has the id: no request, no write, `documents` unchanged. Otherwise writes the filtered list, sends one `DELETE`, and writes the snapshot back only if the request throws. `loading` is never touched and `refresh` never runs |
| `AppDocumentsContext.Reversed` | app/context/DocumentsContext.tsx:35 | same length as the input, and element `i` is input element `len-1-i` |
| `AppDocumentsContext.ReverseInPlace` | app/context/DocumentsContext.tsx:35 | the array's contents become the reverse of its original contents |
| `AppDocumentsContext.ReversedTwice` | app/context/DocumentsContext.tsx:35 | reversing twice restores the server's order |
| `AppDocumentsContext.FetchAfterAppend` | app/context/DocumentsContext.tsx:33-43 | a server list with a new document appended at the end, once reversed, equals the old reversed list with that document prepended, which is what `addDocument` does locally |
| `AppDocumentsContext.DocumentsProvider.constructor` | app/context/DocumentsContext.tsx:29 | the cache starts with an empty list |
| `AppDocumentsContext.DocumentsProvider.FetchDocuments` | app/context/DocumentsContext.tsx:31-39 | sends one `GET /documents` without a user; any decoded list, ok or not, is stored reversed (newest first); a throw leaves `documents` unchanged |
| `AppDocumentsContext.DocumentsProvider.AddDocument` | app/context/DocumentsContext.tsx:41-46 | prepends the document and keeps the rest in order; sends no request; the provider has no other state |

## Left out

- Concurrency: operations are modelled as running one after another to completion. Overlapping async calls, where a snapshot could be stale, and React re-render timing are not modelled.
- Response bodies that are not lists: every decoded body is typed as a list of documents, and one that fails to decode is `ListThrows`.
  - In the current `refresh` (context/DocumentsContext.tsx:66), a JSON body that is not a list would be stored as it is. The model cannot represent that.
  - In the older iteration, `reverse` on such a body throws and the error is caught. That is the `ListThrows` case.
- Mount effects (context/DocumentsContext.tsx:157-159, app/context/DocumentsContext.tsx:48-50): they only call `refresh` or `fetchDocuments` once the user changes or on mount. Those calls are `Refresh` and `FetchDocuments` themselves, so there is no separate member.
- The context's default value (context/DocumentsContext.tsx:33-40, app/context/DocumentsContext.tsx:22-26): no-op stubs, used only outside a provider.
- Console logging, translated warning texts and the server base URL: output and configuration only.
- The upload server (`server/index.js`), sign-in (`context/AuthContext.tsx`), translation tables (`utils.ts`, `app/utils.ts`), screens, navigation and theme: I/O, foreign OCR and OAuth calls, UI and static data. They are not part of this model.
