# QRScanner: scan debounce and export selection

This project models the two pieces of sequential logic in the QRScanner iOS
app, in Dafny, and proves properties of them.

1. **Scanner view model** (`QRScannerViewModel`). It handles three callbacks:
   - A QR detection. It is dropped when it arrives less than 3.0 s after the
     last accepted one. Otherwise the decoded string becomes the pending code,
     the time is stored and a still photo is requested.
   - The photo-capture completion. A usable photo taken while a code is
     pending publishes them both: `scannedCode`, `capturedImage` and
     `showAlert := true`. The pending code is then cleared.
   - A closure that fires two seconds later and hides the alert.

   The files are `scanner.dfy` (module `Scanner`) and `scanner_traces.dfy`
   (module `ScanTraces`, about whole runs of callbacks). `Scanner` holds the
   five fields as a value, one pure transition function per callback, and a
   class `QRScannerViewModel`. Each state-changing method of the class updates
   its fields in place and is proved equal to its transition function.
2. **Latest export directory** (`HistoryView`). When `exportSuccess` becomes
   true, the handler lists the documents directory. It keeps the names that
   start with `qr_export_`, sorts them with `>` and takes the first. When
   there is one, it presents it in the export sheet and resets
   `exportSuccess`. The files are `string_order.dfy` (module `StringOrder`:
   the string order) and `history.dfy` (module `History`: the filter, the
   sort, the selection and the handler).

`wrappers.dfy` holds `Option`, the model of Swift's `T?`.

Modelling choices:
- Time is an integer number of milliseconds, and the cooldown is 3000.
- The detection callback reads the clock twice: once for the guard
  (QRScannerViewModel.swift:113) and once for the stored timestamp (:122).
  These are the parameters `checkedAt` and `stampedAt`.
- The camera's check "the session exists and is running, and the photo
  output exists" (:131-133) is the boolean `captureAvailable`. The photo
  request is the returned flag `captureRequested`.
- A photo completion is `CaptureError`, `NoUsableImage` or `Photo(image)`.
  `NoUsableImage` covers both no file data and data that does not decode.
- The `metadataObjects` array is a sequence of `MetadataObject`. Only its
  first element is looked at, as in the source.
- An export directory URL is its last path component. All entries share the
  documents directory, and the handler compares only that component.
- A documents listing is `NoDocumentsDirectory`, `ListingFailed` (the `try`
  threw) or `Entries(names)`.

Two behaviours of the code are modelled as written:
- On a capture error the callback returns before it reaches `pendingCode`
  (QRScannerViewModel.swift:143-146). The pending code survives the failed
  capture and is not cleared.
- Detections are not gated on `isScanning`. A completion that arrives after
  scanning stopped is handled like any other.

## Model

| member | source | states |
|---|---|---|
| `Scanner.FirstStringValue` | QRScanner/QRScanner/QRScannerViewModel.swift:117-118 | a string is found only when the first metadata object is a machine-readable code, and it is that object's string value |
| `Scanner.Detect` | QRScanner/QRScanner/QRScannerViewModel.swift:111-127 | within 3000 ms of the last accepted stamp, or with no readable first object, nothing changes and no photo is requested; exactly 3000 ms or more (or no previous stamp) with a readable code stores the code as pending and the second clock reading as the timestamp; published fields never change; a photo is requested exactly when the detection is accepted and capture is available |
| `Scanner.CompletePhoto` | QRScanner/QRScanner/QRScannerViewModel.swift:142-167 | an error, an unusable image or no pending code changes nothing (an error leaves the pending code as it was); a photo with a pending code sets the image, publishes the pending code, raises the alert, schedules the hide and clears the pending code; the timestamp is never touched |
| `Scanner.AlertHidden` | QRScanner/QRScanner/QRScannerViewModel.swift:160-162 | the deferred hide lowers the alert and leaves every other field as it was |
| `Scanner.QRScannerViewModel.constructor` | QRScanner/QRScanner/QRScannerViewModel.swift:13-29 | a new view model has no timestamp, no pending or published code, no image and no alert |
| `Scanner.QRScannerViewModel.MetadataOutput` | QRScanner/QRScanner/QRScannerViewModel.swift:111-127 | changes only the pending code and the timestamp, exactly as `Detect` on the old fields; inside the cooldown nothing changes and no photo is requested |
| `Scanner.QRScannerViewModel.CaptureCurrentFrame` | QRScanner/QRScanner/QRScannerViewModel.swift:130-137 | a still photo is requested exactly when the session is running with a photo output |
| `Scanner.QRScannerViewModel.PhotoOutput` | QRScanner/QRScanner/QRScannerViewModel.swift:142-167 | changes only the image, the published code, the alert and the pending code, exactly as `CompletePhoto` on the old fields; an error changes nothing |
| `Scanner.QRScannerViewModel.HideAlert` | QRScanner/QRScanner/QRScannerViewModel.swift:160-162 | changes only the alert flag, and lowers it |
| `ScanTraces.AcceptancesAreGated` | QRScanner/QRScanner/QRScannerViewModel.swift:113-122 | in any run, every accepted detection read the clock at least 3000 ms after the previous accepted stamp, and the timestamp is always the stamp of the last acceptance (it changes on acceptance only, and only to the time then read) |
| `ScanTraces.AcceptedDetectionsSpaced` | QRScanner/QRScanner/QRScannerViewModel.swift:113-122 | if the clock does not run backwards within a callback, any two accepted detections of a run are stamped at least 3000 ms apart, and all are at least 3000 ms after the starting timestamp |
| `ScanTraces.PublicationsBounded` | QRScanner/QRScanner/QRScannerViewModel.swift:111-167 | a run publishes at most once per accepted detection, plus one for a code pending at its start |
| `ScanTraces.PendingIsLatestAcceptance` | QRScanner/QRScanner/QRScannerViewModel.swift:111-167 | after any run, a pending code is the code of the latest accepted detection (or the one pending at the start, if none was accepted) |
| `ScanTraces.PublishedCodesWereAccepted` | QRScanner/QRScanner/QRScannerViewModel.swift:111-167 | every code a run publishes was decoded by one of its accepted detections, or was already pending |
| `ScanTraces.SecondCompletionPublishesNothing` | QRScanner/QRScanner/QRScannerViewModel.swift:148-165 | after a completion that published, a further completion of any kind changes nothing |
| `ScanTraces.DebounceScenario` | QRScanner/QRScanner/QRScannerViewModel.swift:111-167 | detections at 0, 1000, 3000 and 6100 ms with a photo after the first: 0, 3000 and 6100 are accepted, 1000 is dropped, and "A" is published once with the photo |
| `StringOrder.LessIrreflexive` | QRScanner/QRScanner/HistoryView.swift:130 | no name is greater than itself |
| `StringOrder.LessTransitive` | QRScanner/QRScanner/HistoryView.swift:130 | the comparison used by the sort is transitive |
| `StringOrder.LessTrichotomy` | QRScanner/QRScanner/HistoryView.swift:130 | any two names are equal or one is less than the other |
| `StringOrder.AtMostAntisymmetric` | QRScanner/QRScanner/HistoryView.swift:130 | two names that are each at most the other are equal |
| `History.ExportNames` | QRScanner/QRScanner/HistoryView.swift:129 | the filter keeps exactly the names that start with `qr_export_`, each no more often than in the input |
| `History.InsertDescendingSorted` | QRScanner/QRScanner/HistoryView.swift:130 | inserting into a descending sequence keeps it descending |
| `History.InsertDescendingMultiset` | QRScanner/QRScanner/HistoryView.swift:130 | inserting adds exactly the one name and loses none |
| `History.SortDescendingCorrect` | QRScanner/QRScanner/HistoryView.swift:130 | the descending sort returns a permutation of its input in which every name is at least every later one |
| `History.LatestExport` | QRScanner/QRScanner/HistoryView.swift:128-130 | there is no result exactly when no name has the prefix; a result is one of the names, has the prefix, and is greater than or equal to every prefixed name |
| `History.OnlyExportNamesMatter` | QRScanner/QRScanner/HistoryView.swift:129-130 | two listings with the same prefixed names, in any order and with any other names, give the same result |
| `History.OtherNameIgnored` | QRScanner/QRScanner/HistoryView.swift:129 | adding or removing a name without the prefix never changes the result |
| `History.DataController.constructor` | QRScanner/QRScanner/DataController.swift:14 | the export flag starts false |
| `History.HistoryView.constructor` | QRScanner/QRScanner/HistoryView.swift:24-25 | no export directory is chosen and the sheet is hidden |
| `History.HistoryView.OnExportSuccessChange` | QRScanner/QRScanner/HistoryView.swift:123-141 | when the flag became true and the listing has a latest export, the URL is set to it, the sheet is shown and the flag is reset; when the flag became false, there is no documents directory, the listing threw or no name has the prefix, none of the three changes |

## Left out

- Camera setup (`setupCaptureSession`), the preview layer, photo settings and
  encoding. These are AVFoundation calls. They are reduced to the
  `captureAvailable` input and the `PhotoOutcome` value.
- `startScanning`, `stopScanning` and `isScanning`. They flip through
  background and main-queue dispatch, so they are about concurrency. The
  callbacks are taken to run one at a time on the main queue. Detections are
  not gated on `isScanning` in the source either.
- The location delegate and `currentLocation`. This is CoreLocation plumbing
  with floating-point coordinates.
- Persistence in `DataController`: `saveQRCode`, the delete cascade,
  `exportToCSV` (a stub that resets two flags) and `clearAllHistory`. They
  are calls into Core Data, whose behaviour is not part of this model.
- Saving the scan when the alert appears (QRScannerView.swift:59-80). It
  depends on SwiftUI view-appearance timing.
- The share and document-picker sheets, the CSV exporter and all view
  layout, date formatting and navigation. They are UIKit and SwiftUI
  wrappers.
- Timing of the alert hide: the hide is an event the environment delivers.
  The model does not say that it comes two seconds after its completion. It
  also does not say that an earlier hide can lower a later alert.
- Photo requests in runs: `ScanTraces.Apply` drops the `captureRequested` flag.
  A run may therefore deliver a `PhotoCompletion` for a photo that was never
  requested, or an `AlertHideFired` that no completion scheduled. The lemmas
  about runs hold for these extra runs too.
- Scanner.Detect: `Date`'s sub-millisecond precision is not modelled. Time is
  whole milliseconds.
- StringOrder.Less: Swift compares the Unicode scalars of the NFC-normalised
  strings. The model compares code points one by one. The two agree on names
  already in NFC, such as ASCII names. They differ on others. For example,
  U+212A KELVIN SIGN normalises to `K`, so Swift picks "qr_export_L" over
  "qr_export_" followed by U+212A. The model picks the U+212A name, because
  0x212A is greater than `L`. The source covered here never creates
  `qr_export_` entries itself: `exportToCSV` only resets its flags.
- History.IsExportName: compares the prefix code point by code point. Swift's
  `starts(with:)` compares Characters (grapheme clusters). For example,
  "qr_export_" followed by U+0301 and "x" has the prefix here but not in
  Swift, because the final `_` and U+0301 form one Character.
- History.SortDescending: Swift's `sorted(by:)` is not insertion sort. The
  result is the same descending permutation, since the order is total on
  distinct names. `LatestExport`'s contract characterises its result
  independently of the sort, and `OnlyExportNamesMatter` shows that the
  result is unique.
- The log messages written with `print` are not modelled.
