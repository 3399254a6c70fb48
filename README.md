# AdminVirtuDecor: the admin app's backend logic

AdminVirtuDecor is an Android admin app for a furniture shop. The model covers
the sequential logic inside its screens' click handlers and database
callbacks, over three two-level collections of a realtime database. Each
collection maps a partition key and a record key to a record:

- `furniture`: category, then item key, then `Furniture`;
- `Order_details`: the pending orders, by user uid, then orderId, then `OrderDetail`;
- `Completed_Order`: the accepted orders, keyed the same way.

Modules:

- `Firebase` models a collection as `Table<R>` and a delivered snapshot as a
  sequence of partitions. Keys can be null and children can decode to null.
  `SnapshotOf` relates a snapshot to a table.
- `Database.Store` is a class that holds the three tables. Each backend call
  is a method that takes, as `ok`, whether the backend carried it out. A
  failed call changes nothing.
- The five screens are one class each:
  - `PendingOrders.PendingOrderScreen` loads pending orders and stamps each one with its partition's uid. It accepts an order by writing it to completed, then deleting it from pending, then filtering the local list.
  - `ViewFurniture.ViewFurnitureScreen` keeps the catalogue list live, with each item's id taken from its key. It also holds the edit dialog's guards, the two-field edit and delete.
  - `AddFurniture.AddFurnitureScreen` holds the form. Submit runs the three ordered checks, uploads, writes the trimmed record at `furniture/category/key` and resets the form.
  - `CompletedOrders.CompletedOrderScreen` holds the completed list and its loading flag.
  - `Home.HomeScreen` holds the dashboard counters.
- `KotlinText` models the standard-library `isWhitespace`, `isBlank` and `trim`.

Each nested loop becomes a method with loop invariants. Its result is tied to
a function written from the end of the snapshot: `Loaded`, `Listed` or
`AllDecoded`. Lemmas then state what those lists contain.

The model rests on these Firebase assumptions:

- `setValue` overwrites the record at its path.
- `updateChildren` merges only the named fields. At a missing path it creates a record whose other fields are Kotlin defaults.
- `removeValue` deletes the record. A partition left empty disappears, because the database stores no empty nodes.

Inputs to the model:

- Snapshots are inputs to the callbacks.
- Uploads are a function `upload(uri, folder)`. `None` means the upload threw. The function is deterministic, while the app stores every blob under a fresh UUID, so the same image picked twice gets two different URLs in the app and the same URL twice in the model; nothing proved here depends on the URLs being distinct.
- `push().key` and the UUID fallback are inputs.
- `toDoubleOrNull`, `Double.toString` and `toDouble` are function-valued constants of the screen that uses them.

Behaviour of the code that the model keeps:

- Uploads run one after another (`map` over suspending calls). The first failed upload aborts the submit, and no later upload is made.
- The dashboard's completed listener calls `toDouble()` on every decoded order's `totalPrice` inside its loop. A malformed `totalPrice` throws out of the callback before either dashboard value is assigned. Nothing in the app catches that exception, so it escapes the listener: `thrown` in `Home.CountCompleted` stands for that escape, and the kept count in `Home.HomeScreen.OnCompletedOrders` describes the screen's state only if the app survives it.
- After a successful accept, the local filter drops every order with that orderId under any uid, not only the accepted `[uid][orderId]` entry.
- Accept finds the record to copy and delete through the order's `orderId` field, not through the key it was loaded from. An order filed at `U/K` whose `orderId` is `X` is copied to `Completed_Order/U/X`, but the delete of `Order_details/U/X` misses it, so the next load lists it again (`PendingOrders.MisfiledOrderSurvivesAccept`). `PendingOrders.AcceptedIsNotReloadedPending` therefore assumes that every pending order is filed under its own orderId.
- The pending dashboard count also counts orders under a partition whose key is null. The pending list skips those partitions, so the two agree only when every partition has a key (`Home.PendingCountMatchesPendingList`).
- Edit and delete address `furniture/{item.category}/{item.id}`. The id comes from the storage key, but the category comes from the record's own `category` field, not from the bucket it was read from.

## Model

| member | source | states |
|---|---|---|
| KotlinText.IsWhitespace | app/src/main/java/com/example/adminvirtudecor/screen/AddFurnitureScreen.kt:221 | `Char.isWhitespace`: the Java whitespace characters and the Unicode space separators, character for character |
| KotlinText.IsBlank | app/src/main/java/com/example/adminvirtudecor/screen/AddFurnitureScreen.kt:221 | a text is blank exactly when dropping its leading whitespace leaves nothing |
| KotlinText.Trim | app/src/main/java/com/example/adminvirtudecor/screen/AddFurnitureScreen.kt:253-255 | the trimmed text is empty exactly when the input is blank, and otherwise starts and ends with a non-whitespace character |
| KotlinText.TrimIsSlice | app/src/main/java/com/example/adminvirtudecor/screen/AddFurnitureScreen.kt:253-255 | trim keeps a contiguous slice of the input whose removed prefix and suffix are all whitespace |
| KotlinText.TrimStartFacts | app/src/main/java/com/example/adminvirtudecor/screen/AddFurnitureScreen.kt:253-255 | dropping leading whitespace keeps a suffix, removes only whitespace and stops at a non-whitespace character |
| KotlinText.TrimEndFacts | app/src/main/java/com/example/adminvirtudecor/screen/AddFurnitureScreen.kt:253-255 | dropping trailing whitespace keeps a prefix, removes only whitespace and stops at a non-whitespace character |
| KotlinText.TrimBlank | app/src/main/java/com/example/adminvirtudecor/screen/AddFurnitureScreen.kt:221 | trimming both ends gives the empty text exactly when every character is whitespace |
| Firebase.SetValue | app/src/main/java/com/example/adminvirtudecor/screen/PendingOrderScreen.kt:85-88 | after a write the cell holds the record, every other cell is unchanged, and no empty partition appears |
| Firebase.RemoveValue | app/src/main/java/com/example/adminvirtudecor/screen/PendingOrderScreen.kt:91-94 | after a delete the cell is empty, every other cell is unchanged, and no empty partition is left behind |
| Firebase.RemoveUndoesSet | app/src/main/java/com/example/adminvirtudecor/screen/ViewFurnitureScreen.kt:111 | deleting a record just written at a previously empty path restores the table exactly |
| Firebase.DecodedMembership | app/src/main/java/com/example/adminvirtudecor/screen/CompletedOrderScreen.kt:30-32 | a record is decoded from a partition exactly when one of its children holds it |
| Firebase.AllDecodedAppend | app/src/main/java/com/example/adminvirtudecor/screen/CompletedOrderScreen.kt:29-33 | flattening distributes over concatenation of partition lists |
| Firebase.AllDecodedMembership | app/src/main/java/com/example/adminvirtudecor/screen/CompletedOrderScreen.kt:28-33 | a record is in the flattened snapshot exactly when some child of some partition holds it |
| Firebase.StoredIsDecoded | app/src/main/java/com/example/adminvirtudecor/screen/CompletedOrderScreen.kt:26-35 | every record stored in a table appears among the records flattened from any snapshot of it |
| Database.UpdatePriceAndDescription | app/src/main/java/com/example/adminvirtudecor/screen/ViewFurnitureScreen.kt:98-102 | after the merge the record at the path has the new price and description; every other cell is unchanged |
| Database.EditKeepsOtherFields | app/src/main/java/com/example/adminvirtudecor/screen/ViewFurnitureScreen.kt:98-102 | the merge leaves id, name, images, model URL and category of an existing record as they were |
| Database.Store.constructor | app/src/main/java/com/example/adminvirtudecor/screen/PendingOrderScreen.kt:27 | the store holds the given tables |
| Database.Store.SetFurniture | app/src/main/java/com/example/adminvirtudecor/screen/AddFurnitureScreen.kt:261 | a successful write overwrites the item at category/key; a failed one changes nothing |
| Database.Store.UpdateFurniture | app/src/main/java/com/example/adminvirtudecor/screen/ViewFurnitureScreen.kt:102 | a successful update merges the two fields; a failed one changes nothing |
| Database.Store.RemoveFurniture | app/src/main/java/com/example/adminvirtudecor/screen/ViewFurnitureScreen.kt:111 | a successful delete removes the item at category/id; a failed one changes nothing |
| Database.Store.SetCompletedOrder | app/src/main/java/com/example/adminvirtudecor/screen/PendingOrderScreen.kt:85-88 | a successful write puts the order at uid/orderId of the completed table; a failed one changes nothing |
| Database.Store.RemovePendingOrder | app/src/main/java/com/example/adminvirtudecor/screen/PendingOrderScreen.kt:91-94 | a successful delete removes uid/orderId from the pending table; a failed one changes nothing |
| PendingOrders.Stamp | app/src/main/java/com/example/adminvirtudecor/screen/PendingOrderScreen.kt:40 | the order with its embedded uid overwritten (see StampOverwritesUid) |
| PendingOrders.StampOverwritesUid | app/src/main/java/com/example/adminvirtudecor/screen/PendingOrderScreen.kt:40 | the stamped order has the partition's uid, and every other field of the order and of its user is kept |
| PendingOrders.Collect | app/src/main/java/com/example/adminvirtudecor/screen/PendingOrderScreen.kt:34-44 | the nested loops produce exactly the loaded list of the snapshot |
| PendingOrders.StampedMembership | app/src/main/java/com/example/adminvirtudecor/screen/PendingOrderScreen.kt:37-42 | an order is in a partition's list exactly when it is a decoded child of it with its uid overwritten |
| PendingOrders.PartitionMembership | app/src/main/java/com/example/adminvirtudecor/screen/PendingOrderScreen.kt:36-42 | a partition contributes exactly its decoded children stamped with its key, and nothing when it has no key |
| PendingOrders.LoadedMembership | app/src/main/java/com/example/adminvirtudecor/screen/PendingOrderScreen.kt:35-41 | an order is loaded exactly when some keyed partition has a decoded child equal to it up to the uid, which is the partition key |
| PendingOrders.LoadedUidIsPartitionKey | app/src/main/java/com/example/adminvirtudecor/screen/PendingOrderScreen.kt:36-40 | every loaded order's uid is the key of a partition of the snapshot |
| PendingOrders.LoadedAppend | app/src/main/java/com/example/adminvirtudecor/screen/PendingOrderScreen.kt:35-44 | loading distributes over concatenation of partition lists |
| PendingOrders.KeylessPartitionIgnored | app/src/main/java/com/example/adminvirtudecor/screen/PendingOrderScreen.kt:36 | a partition without a key adds nothing to the list, wherever it stands |
| PendingOrders.WithoutOrder | app/src/main/java/com/example/adminvirtudecor/screen/PendingOrderScreen.kt:96 | the filtered list holds exactly the orders whose id differs, and is no longer than the original |
| PendingOrders.WithoutOrderAppend | app/src/main/java/com/example/adminvirtudecor/screen/PendingOrderScreen.kt:96 | filtering distributes over concatenation, so the kept orders keep their relative order |
| PendingOrders.WithoutAbsentOrder | app/src/main/java/com/example/adminvirtudecor/screen/PendingOrderScreen.kt:96 | a list without that orderId comes back unchanged |
| PendingOrders.AcceptKeepsExclusive | app/src/main/java/com/example/adminvirtudecor/screen/PendingOrderScreen.kt:85-94 | a completed accept keeps no path in both the pending and the completed table |
| PendingOrders.FailedDeleteDuplicates | app/src/main/java/com/example/adminvirtudecor/screen/PendingOrderScreen.kt:99-101 | a successful write followed by a failed delete leaves the order in both tables |
| PendingOrders.AcceptedIsListedCompleted | app/src/main/java/com/example/adminvirtudecor/screen/PendingOrderScreen.kt:85-88 | after the write, any snapshot of the completed table yields the accepted order as written |
| PendingOrders.AcceptedIsNotReloadedPending | app/src/main/java/com/example/adminvirtudecor/screen/PendingOrderScreen.kt:89-94 | after the delete, reloading the pending table yields no order with the accepted uid and orderId, when orders are filed under their own orderId |
| PendingOrders.MisfiledOrderSurvivesAccept | app/src/main/java/com/example/adminvirtudecor/screen/PendingOrderScreen.kt:87-93 | an order filed under a key other than its orderId is not removed by the delete, and a snapshot of the table afterwards loads it again |
| PendingOrders.PendingOrderScreen.constructor | app/src/main/java/com/example/adminvirtudecor/screen/PendingOrderScreen.kt:26 | the screen starts with an empty list |
| PendingOrders.PendingOrderScreen.OnDataChange | app/src/main/java/com/example/adminvirtudecor/screen/PendingOrderScreen.kt:33-46 | the loaded list replaces the old one |
| PendingOrders.PendingOrderScreen.Accept | app/src/main/java/com/example/adminvirtudecor/screen/PendingOrderScreen.kt:80-106 | write first, delete only after a successful write, filter only after both; the outcome of each of the three cases, and no other cell of either table changes |
| ViewFurniture.WithKey | app/src/main/java/com/example/adminvirtudecor/screen/ViewFurnitureScreen.kt:46 | the item with its id replaced by the child's key (see WithKeySetsId) |
| ViewFurniture.WithKeySetsId | app/src/main/java/com/example/adminvirtudecor/screen/ViewFurnitureScreen.kt:46 | the id becomes the key, or "" for a null key, and every other field is kept |
| ViewFurniture.Collect | app/src/main/java/com/example/adminvirtudecor/screen/ViewFurnitureScreen.kt:41-49 | the nested loops produce exactly the listed items of the snapshot |
| ViewFurniture.KeyedMembership | app/src/main/java/com/example/adminvirtudecor/screen/ViewFurnitureScreen.kt:43-47 | an item is in a bucket's list exactly when it is a decoded child with its id replaced by the child's key, or "" for a null key |
| ViewFurniture.ListedMembership | app/src/main/java/com/example/adminvirtudecor/screen/ViewFurnitureScreen.kt:42-48 | an item is listed exactly when some bucket has a decoded child equal to it up to the id, which is the child's key |
| ViewFurniture.StoredIsListed | app/src/main/java/com/example/adminvirtudecor/screen/ViewFurnitureScreen.kt:40-50 | every stored item appears in the list of any snapshot of the collection, with its key as id |
| ViewFurniture.SaveEnabled | app/src/main/java/com/example/adminvirtudecor/screen/ViewFurnitureScreen.kt:235 | Save is enabled exactly when neither the price nor the description trims to the empty text |
| ViewFurniture.SavedPrice | app/src/main/java/com/example/adminvirtudecor/screen/ViewFurnitureScreen.kt:214-220 | a price is handed on exactly when both fields are non-blank and the price parses, and it is the parsed price |
| ViewFurniture.ViewFurnitureScreen.constructor | app/src/main/java/com/example/adminvirtudecor/screen/ViewFurnitureScreen.kt:34-36 | the screen starts with an empty list, loading and no error |
| ViewFurniture.ViewFurnitureScreen.OnDataChange | app/src/main/java/com/example/adminvirtudecor/screen/ViewFurnitureScreen.kt:40-52 | the listed items replace the list wholesale and loading ends |
| ViewFurniture.ViewFurnitureScreen.OnCancelled | app/src/main/java/com/example/adminvirtudecor/screen/ViewFurnitureScreen.kt:54-57 | the error message is recorded and loading ends; the list is not touched |
| ViewFurniture.ViewFurnitureScreen.Edit | app/src/main/java/com/example/adminvirtudecor/screen/ViewFurnitureScreen.kt:97-109 | the price as text and the description are merged at category/id; a failed update changes nothing |
| ViewFurniture.ViewFurnitureScreen.Delete | app/src/main/java/com/example/adminvirtudecor/screen/ViewFurnitureScreen.kt:110-118 | a successful delete empties exactly category/id; every other cell is unchanged |
| ViewFurniture.ViewFurnitureScreen.Save | app/src/main/java/com/example/adminvirtudecor/screen/ViewFurnitureScreen.kt:214-220 | the dialog closes and an edit is issued exactly when both fields are non-blank and the price parses |
| AddFurniture.Rejection | app/src/main/java/com/example/adminvirtudecor/screen/AddFurnitureScreen.kt:221-232 | each of the three messages is given exactly when its check is the first to fail, and none when all pass |
| AddFurniture.UploadAll | app/src/main/java/com/example/adminvirtudecor/screen/AddFurnitureScreen.kt:239-241 | the images upload in pick order, one URL each, and the whole fails exactly when one upload fails |
| AddFurniture.NewFurniture | app/src/main/java/com/example/adminvirtudecor/screen/AddFurnitureScreen.kt:251-259 | the record the form writes: the key as id, trimmed text fields, the URLs, the model URL and the selected category (see NewFurnitureFields) |
| AddFurniture.NewFurnitureFields | app/src/main/java/com/example/adminvirtudecor/screen/AddFurnitureScreen.kt:251-259 | a record built from a form that passed the checks has its key as id, the chosen category and the image URLs, and non-empty trimmed text fields |
| AddFurniture.AddedIsListed | app/src/main/java/com/example/adminvirtudecor/screen/AddFurnitureScreen.kt:249-261 | after the write the catalogue list of any snapshot shows the new record exactly as written |
| AddFurniture.AddFurnitureScreen.constructor | app/src/main/java/com/example/adminvirtudecor/screen/AddFurnitureScreen.kt:39-48 | the form starts empty, not uploading, with the first category "Chair" |
| AddFurniture.AddFurnitureScreen.PickImages | app/src/main/java/com/example/adminvirtudecor/screen/AddFurnitureScreen.kt:53-56 | the picked images replace the selection only when the result is a non-empty list |
| AddFurniture.AddFurnitureScreen.PickModel | app/src/main/java/com/example/adminvirtudecor/screen/AddFurnitureScreen.kt:59-63 | the picked model, possibly null, replaces the selection |
| AddFurniture.AddFurnitureScreen.SelectCategory | app/src/main/java/com/example/adminvirtudecor/screen/AddFurnitureScreen.kt:144-154 | the chosen category of the list becomes the selection |
| AddFurniture.AddFurnitureScreen.Submit | app/src/main/java/com/example/adminvirtudecor/screen/AddFurnitureScreen.kt:219-277 | a rejected form keeps every field and writes nothing; otherwise the record is written at category/key only when every upload and the write succeed, and then the form is cleared; on failure the form is kept with the failure message; uploading is over in every case |
| AddFurniture.AddFurnitureScreen.Publish | app/src/main/java/com/example/adminvirtudecor/screen/AddFurnitureScreen.kt:237-276 | the launched upload: images, then model, then the write, and the success or failure outcome of the form |
| CompletedOrders.Collect | app/src/main/java/com/example/adminvirtudecor/screen/CompletedOrderScreen.kt:28-34 | the nested loops produce exactly the decoded orders, as stored and in iteration order |
| CompletedOrders.CompletedOrderScreen.constructor | app/src/main/java/com/example/adminvirtudecor/screen/CompletedOrderScreen.kt:20-21 | the screen starts with an empty list, loading |
| CompletedOrders.CompletedOrderScreen.OnDataChange | app/src/main/java/com/example/adminvirtudecor/screen/CompletedOrderScreen.kt:27-37 | the decoded orders replace the list wholesale and loading ends |
| CompletedOrders.CompletedOrderScreen.OnCancelled | app/src/main/java/com/example/adminvirtudecor/screen/CompletedOrderScreen.kt:39-41 | loading ends and the list is not touched |
| Home.CountOrders | app/src/main/java/com/example/adminvirtudecor/navigation/HomeScreen.kt:42-48 | the count, started from zero, is the number of decoded orders over all partitions |
| Home.CountCompleted | app/src/main/java/com/example/adminvirtudecor/navigation/HomeScreen.kt:57-67 | the loop throws exactly when some decoded order's total price does not parse, and otherwise counts every decoded order |
| Home.CountSplits | app/src/main/java/com/example/adminvirtudecor/navigation/HomeScreen.kt:43-48 | the count of a concatenation of partition lists is the sum of their counts |
| Home.EmptyPartitionCountsZero | app/src/main/java/com/example/adminvirtudecor/navigation/HomeScreen.kt:43-48 | a partition with no decodable order adds nothing to the count, wherever it stands |
| Home.NothingDecoded | app/src/main/java/com/example/adminvirtudecor/navigation/HomeScreen.kt:44-47 | a partition whose children all decode to null yields no orders |
| Home.PendingCountMatchesPendingList | app/src/main/java/com/example/adminvirtudecor/navigation/HomeScreen.kt:40-50 | when every partition has a key, the pending count equals the length of the pending screen's list for the same snapshot |
| Home.StampedLength | app/src/main/java/com/example/adminvirtudecor/navigation/HomeScreen.kt:44-47 | stamping uids keeps one order per decoded child |
| Home.HomeScreen.constructor | app/src/main/java/com/example/adminvirtudecor/navigation/HomeScreen.kt:31-32 | both counters start at zero |
| Home.HomeScreen.OnPendingOrders | app/src/main/java/com/example/adminvirtudecor/navigation/HomeScreen.kt:40-50 | the pending count is recomputed from the snapshot alone |
| Home.HomeScreen.OnCompletedOrders | app/src/main/java/com/example/adminvirtudecor/navigation/HomeScreen.kt:55-70 | the completed count is recomputed from the snapshot, or kept when some total price does not parse |
| Home.HomeScreen.OnCancelled | app/src/main/java/com/example/adminvirtudecor/navigation/HomeScreen.kt:51 | cancellation leaves both counters as they were |

## Left out

- Compose layout, styling, dialogs' visibility, toasts, `Log` calls and navigation: they render state and change none of the modelled data.
- Login and sign-up screens: they do nothing beyond calling the authentication service.
- The blob upload itself (`uploadFileToFirebaseStorage`) and key generation (`push().key`, `UUID.randomUUID()`): foreign code, so the URLs and keys are inputs.
- Total earnings on the dashboard and the price display: floating-point arithmetic. Only whether `toDouble` throws is kept, because that decides whether the count is assigned.
- `toDoubleOrNull`, `toDouble` and `Double.toString`: foreign parsing and printing, so they are function-valued inputs.
- The pending screen's `onCancelled`: it only logs and shows a toast.
- Listener registration, their lifetime, callback scheduling and concurrency: each callback is one sequential step.
- `OrderDetail`: its fields are reconstructed from the screens' uses of them, mainly the pending order card.
- `Firebase` semantics beyond overwrite, merge and delete: foreign code.
- Path segments: uid, orderId, category and record keys are assumed to be non-empty single path segments, so that each addresses one cell. The app does not check this. The database client drops an empty segment, so an empty orderId or category collapses the path onto the partition: accepting an order whose orderId is "" overwrites all of `Completed_Order/uid` and deletes all of `Order_details/uid`, and an edit or delete of an item whose category is "" addresses `furniture/id`. A `/` inside a key addresses a deeper node, and `.`, `#`, `$`, `[` or `]` make `child` throw. None of this is modelled, and the "every other cell is unchanged" clauses of Accept, Edit and Delete hold only under this assumption.
- Home.CountOrders: the counter is a `nat`, without modelling the 32-bit `Int` overflow, which would need more than two billion orders.
