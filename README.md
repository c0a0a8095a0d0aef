# FinTrack security core, modelled in Dafny

FinTrack is a personal finance tracker for iOS. Its `SecurityService` holds
the app's security decisions, and this project models them:

- **Impossible-travel detector** (`location.dfy`). `checkSuspiciousLocation`
  keeps a history of location fixes (`previousLocations`). It drops fixes with
  invalid accuracy, appends the new fix, and evicts every fix more than ten
  minutes away from "now". It then compares the last two fixes with three rules,
  checked in a fixed order: speed above 300 m/s, a jump of more than 1000 m in
  under 60 s, and an altitude change of more than 1000 m in under 60 s. The
  history is a class field that the method updates in place. The pure
  functions `Evict`, `Classify` and `Assess` specify it.
- **Transaction gate** (`transaction_risk.dfy`). `validateTransaction` refuses
  when nobody is signed in. It blocks on more than five transactions dated less
  than 300 s before now. A transaction over 10000 is allowed only if the
  biometric step-up succeeds.
- **Device integrity** (`device_integrity.dfy`). `checkDeviceSecurity` needs
  biometric capability. `isJailbroken` probes a fixed list of five paths.
- **Transaction values** (`transactions.dfy`). These are the `Transaction`
  record and the `TransactionType` and `Category` enumerations, with their raw
  values and display names. They also include the fallbacks used when a stored
  document is decoded.

The model takes its environment as parameters:

- The clock ("now") is a `real` number of seconds.
- The geodesic distance between two fixes is a function, `distance`, that the
  monitor receives when it is constructed.
- The signed-in user is an `Option<string>`.
- The fetched transaction list is an `Option<seq<Transaction>>`. `None` is a
  failed fetch.
- The outcome of the biometric step-up is a `bool`.
- The files present on the device are a `set<string>`.
- Biometric capability is a `bool`.

Choices the code makes, which the model follows:

- The eviction filter keeps a fix when `|timestamp - now| <= 600`. Fixes dated
  in the future are therefore evicted too, not only old ones.
- Altitude is a plain number on every fix, not an optional value. The
  altitude rule is always evaluated.
- When the transaction fetch fails, the code skips both the burst check and
  the high-value check and allows the transaction
  (`FinTrack/FinTrack/Services/SecurityService.swift:166-185`). So a failed
  fetch lets a high-value transaction through without the step-up; it is not
  treated as an empty list, on which the high-value check would still run.
  `TransactionRisk.FailedFetchAllows` states this.
- The source returns a plain `Bool` from the location check. `Verdict`
  records which rule fired, because the rules send different alerts. The
  method's result is `Verdict != Clear`.

## Model

| member | source | states |
|---|---|---|
| `Transactions.TypeRawValue` | FinTrack/FinTrack/Models/Transaction.swift:26-28 | income's raw value is "income" and expense's is "expense" |
| `Transactions.TypeDisplayName` | FinTrack/FinTrack/Models/Transaction.swift:31-36 | income is shown as "Entrada" and expense as "Saída" |
| `Transactions.TypeFromRawValue` | FinTrack/FinTrack/Models/Transaction.swift:26-28 | the failable init succeeds exactly on a raw value of some case, and yields a case with that raw value |
| `Transactions.DecodeTransactionType` | FinTrack/FinTrack/Services/FirestoreService.swift:59 | a stored `type` field decodes to income exactly when it is the string "income"; a missing, non-string or unknown value becomes expense |
| `Transactions.TypeRawValueRoundTrip` | FinTrack/FinTrack/Models/Transaction.swift:26-28 | decoding a type's raw value, strictly or leniently, gives back that type |
| `Transactions.AllTransactionTypesComplete` | FinTrack/FinTrack/Models/Transaction.swift:26-28 | the case list has two distinct entries and contains every case |
| `Transactions.TypeRawValueInjective` | FinTrack/FinTrack/Models/Transaction.swift:26-28 | distinct types have distinct raw values |
| `Transactions.TypeDisplayNameInjective` | FinTrack/FinTrack/Models/Transaction.swift:31-36 | distinct types have distinct display names |
| `Transactions.CategoryRawValue` | FinTrack/FinTrack/Models/Transaction.swift:40-46 | each category's raw value is its own case name in lower case ("food" for food, …, "other" for other) |
| `Transactions.CategoryDisplayName` | FinTrack/FinTrack/Models/Transaction.swift:49-57 | each category is shown with its own label: Alimentação, Transporte, Entretenimento, Saúde, Salário, Outros |
| `Transactions.CategoryFromRawValue` | FinTrack/FinTrack/Models/Transaction.swift:40-46 | the failable init succeeds exactly on a raw value of some case, and yields a case with that raw value |
| `Transactions.DecodeCategory` | FinTrack/FinTrack/Services/FirestoreService.swift:60 | each of the six raw strings decodes to its own category; anything else (missing, non-string, unknown) decodes to other |
| `Transactions.CategoryRawValueRoundTrip` | FinTrack/FinTrack/Models/Transaction.swift:40-46 | decoding a category's raw value, strictly or leniently, gives back that category |
| `Transactions.AllCategoriesComplete` | FinTrack/FinTrack/Models/Transaction.swift:40-46 | the case list has six pairwise distinct entries and contains every case |
| `Transactions.CategoryRawValueInjective` | FinTrack/FinTrack/Models/Transaction.swift:40-46 | distinct categories have distinct raw values |
| `Transactions.CategoryDisplayNameInjective` | FinTrack/FinTrack/Models/Transaction.swift:49-57 | distinct categories have distinct display names |
| `Transactions.NewTransaction` | FinTrack/FinTrack/Models/Transaction.swift:14-21 | the initializer stores every given field unchanged |
| `Location.Evict` | FinTrack/FinTrack/Services/SecurityService.swift:113-115 | the kept fixes are exactly the fixes of the history within 600 s of now, with none added and the length not grown |
| `Location.EvictConcat` | FinTrack/FinTrack/Services/SecurityService.swift:113-115 | the filter keeps the history's order and decides each fix on its own: it distributes over concatenation |
| `Location.EvictAppend` | FinTrack/FinTrack/Services/SecurityService.swift:110-115 | appending and evicting gives the old kept fixes, then the new fix if it is in the window |
| `Location.EvictIdempotent` | FinTrack/FinTrack/Services/SecurityService.swift:113-115 | evicting a second time with the same now changes nothing |
| `Location.EvictKeepsInWindow` | FinTrack/FinTrack/Services/SecurityService.swift:113-115 | a history entirely inside the window is left unchanged |
| `Location.RecordedSampleIsCompared` | FinTrack/FinTrack/Services/SecurityService.swift:110-121 | a fix inside the window becomes the current fix and is compared with the latest fix kept before it |
| `Location.OutOfWindowSampleIgnored` | FinTrack/FinTrack/Services/SecurityService.swift:110-121 | a fix dated outside the window is evicted at once, and the verdict is that of the fixes already kept |
| `Location.Classify` | FinTrack/FinTrack/Services/SecurityService.swift:128-153 | a speed verdict reports distance over interval, a jump verdict the distance and the interval, and an altitude verdict the altitude difference |
| `Location.SpeedAboveThreshold` | FinTrack/FinTrack/Services/SecurityService.swift:128-131 | for a positive interval, speed above 300 m/s is the same as distance above 300 times the interval |
| `Location.ClassifyFirstMatch` | FinTrack/FinTrack/Services/SecurityService.swift:127-155 | the verdict is the first of speed, jump and altitude whose rule holds, and clear when none holds |
| `Location.SuspiciousIffSomeRule` | FinTrack/FinTrack/Services/SecurityService.swift:127-155 | a pair is suspicious exactly when at least one of the three rules holds, whatever their order |
| `Location.NonPositiveIntervalSkipsSpeed` | FinTrack/FinTrack/Services/SecurityService.swift:128-145 | with an interval of zero or less the speed rule is skipped, and a distance over 1000 m is still a jump |
| `Location.LongIntervalOnlySpeed` | FinTrack/FinTrack/Services/SecurityService.swift:128-153 | with an interval of 60 s or more only the speed rule can fire |
| `Location.Assess` | FinTrack/FinTrack/Services/SecurityService.swift:118-125 | fewer than two kept fixes is never suspicious |
| `Location.AssessLastTwo` | FinTrack/FinTrack/Services/SecurityService.swift:120-121 | the verdict depends only on the last two kept fixes |
| `Location.LocationMonitor.constructor` | FinTrack/FinTrack/Services/SecurityService.swift:12 | a new monitor starts with an empty history |
| `Location.LocationMonitor.CheckSuspiciousLocation` | FinTrack/FinTrack/Services/SecurityService.swift:105-156 | an invalid fix returns false and leaves the history unchanged; otherwise the history becomes the eviction of old history plus the fix, every kept fix is within 600 s of now, and the result is whether the last two kept fixes are flagged; only admissible fixes are ever stored |
| `TransactionRisk.RecentCount` | FinTrack/FinTrack/Services/SecurityService.swift:168-170 | the count is at most the list length; it is zero exactly when no entry is recent and the full length exactly when every entry is |
| `TransactionRisk.RecentCountConcat` | FinTrack/FinTrack/Services/SecurityService.swift:168-170 | the count of a concatenation is the sum of the counts |
| `TransactionRisk.ValidateTransaction` | FinTrack/FinTrack/Services/SecurityService.swift:160-186 | no signed-in user refuses; a fetched burst of more than five recent entries refuses; a fetched high-value transaction is allowed only if the step-up passed |
| `TransactionRisk.FailedFetchAllows` | FinTrack/FinTrack/Services/SecurityService.swift:164-185 | with a signed-in user, a failed fetch allows any transaction, with no burst check and no step-up |
| `TransactionRisk.HighValueDefersToStepUp` | FinTrack/FinTrack/Services/SecurityService.swift:177-185 | without a burst, an amount over 10000 yields exactly the step-up outcome, and any other amount is allowed |
| `TransactionRisk.BurstBlocksRegardlessOfAmount` | FinTrack/FinTrack/Services/SecurityService.swift:168-175 | six or more fetched transactions, all recent or future-dated, refuse any candidate whatever its amount and the step-up outcome |
| `TransactionRisk.MoreHistoryNeverUnblocks` | FinTrack/FinTrack/Services/SecurityService.swift:168-175 | a burst block stays a block when more stored transactions are added before or after |
| `TransactionRisk.StepUpIrrelevantBelowThreshold` | FinTrack/FinTrack/Services/SecurityService.swift:177-185 | for an amount of at most 10000 the step-up outcome does not affect the decision |
| `DeviceIntegrity.IsJailbroken` | FinTrack/FinTrack/Services/SecurityService.swift:54-70 | the probe returns true exactly when some path of the five-entry denylist exists |
| `DeviceIntegrity.CheckDeviceSecurity` | FinTrack/FinTrack/Services/SecurityService.swift:27-52 | without biometrics the device is insecure; with biometrics it is secure exactly when no denylisted path exists |
| `DeviceIntegrity.CheckDeviceSecurityByProbing` | FinTrack/FinTrack/Services/SecurityService.swift:27-52 | the guard-then-probe sequence of the source returns the same answer as the specification |
| `DeviceIntegrity.OnlyDenylistMatters` | FinTrack/FinTrack/Services/SecurityService.swift:55-67 | files outside the denylist do not change the outcome |
| `DeviceIntegrity.MoreFilesNeverMoreSecure` | FinTrack/FinTrack/Services/SecurityService.swift:55-69 | more existing files can only turn secure into insecure |

## Left out

- Firestore I/O is not modelled. This covers the write of each location fix
  (`SecurityService.swift:87-94`) and the transaction query. The query's
  result is the `fetched` parameter.
- Transactions.NewTransaction: the initializer's defaults, a fresh
  `UUID().uuidString` for `id` and the current `Date()` for `date`
  (`Transaction.swift:14`), are not modelled; both values are arguments.
- Document decoding is modelled only for `type` and `category`. The defaults
  for the other fields of a stored transaction (empty id, amount 0, current
  date) are not part of this model.
- The `CLLocationManager` delegate, the permission request and the start of
  tracking are not modelled. Fixes are passed to `CheckSuspiciousLocation`
  directly. The delegate only feeds the last fix of each update.
- `LAContext`, `DCDevice` and `FileManager` are platform calls. They are
  replaced by the `biometricsAvailable`, `stepUpPassed` and `existingPaths`
  parameters. The `DCDevice` branch of `checkDeviceSecurity` has an empty body
  and affects nothing.
- Security alerts are not modelled: the `Task {}` blocks, `MainActor` and the
  notification delivery. They are fire-and-forget and do not affect any
  result. Their message text is not modelled either, including the
  `Int(speed * 3.6)` km/h formatting.
- Location.Classify: the speed payload is in m/s. It is not converted to a
  truncated km/h integer.
- The great-circle distance is not modelled. It is the `distance` function
  that the monitor is given.
- Floating point is not modelled. Times, distances and amounts are exact
  `real`s, so NaN, infinities and rounding are not captured.
- The `shared` singleton is not modelled. Concurrent calls on one
  `SecurityService` are not modelled either. Each monitor is a single object
  and is used sequentially.
- The sign-in service, the Keychain, the SwiftUI views and the `User` record
  are not part of this model.
- There is no separate decision engine and no per-account context in the
  source: `SecurityService` itself decides and holds one history. The model
  follows that.
