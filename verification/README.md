# Scheduled renewals and WebDAV validation (win-acme) in Dafny

This project models two pieces of decision logic from win-acme
(letsencrypt-win-simple), the Windows ACME client:

* **`ScheduledRenewal`**: a scheduled certificate renewal. The model covers
  which of its properties are written to disk, the `CentralSsl` shortcut,
  and `Certificate(store)`. `Certificate` looks up the renewal's current
  certificate. It picks the most recent *successful* attempt in the history
  (a stable descending sort by date, then a filter on success). If that
  attempt recorded a thumbprint, the store is searched by that thumbprint.
  Otherwise it is searched by the friendly name, which is the host name of
  the binding.
* **WebDAV validation plugin**: the predicate that decides whether the
  plugin applies to a target (empty web root or a UNC path), the unattended
  and interactive defaulting of a target's web root and WebDAV credentials,
  and the "folder is empty" check.

Everything is immutable datatypes and pure functions:

| file | module | contents |
|---|---|---|
| `wrappers.dfy` | `Wrappers` | `Option` (a .NET value that may be null), `Result` (an operation that may throw) |
| `dotnet_strings.dfy` | `DotNetStrings` | `string.IsNullOrEmpty`, `string.IsNullOrWhiteSpace`, `char.IsWhiteSpace`, ordinal `StartsWith` |
| `targets.dfy` | `Targets` | the fields of `Target` that the renewal and WebDAV logic read or write |
| `history.dfy` | `History` | `RenewResult`; the `OrderByDescending` / `Where` / `Select` / `FirstOrDefault` pipeline; the reference selection `LatestIndex`; the lemmas tying them together |
| `scheduled_renewal.dfy` | `ScheduledRenewal` | the renewal record, its persisted view, `CentralSsl`, `Certificate` |
| `webdav.dfy` | `WebDav` | `CanValidate`, `Default`, `Aquire`, `IsEmpty` |

How the source is rendered:

* Dates are `DateTime` ticks (`int`).
* A nullable C# string is an `Option<string>`.
* The store is never called. `Certificate` returns the single lookup it
  would issue, `ByThumbprint(t)` or `ByFriendlyName(host)`. If the code
  would read `Binding.Host` on a null binding, which throws
  `NullReferenceException`, it returns `Failure(NullBinding)`.
* `OrderByDescending` is modelled as a stable insertion sort.
  `OrderByDateDescendingIsStable` states the stability: for every date, the
  entries with that date keep their list order. The sort-based pipeline is
  proved equal to an independent single-scan definition, `LatestIndex`.
  That definition picks a successful entry with the greatest date, and the
  earliest-listed one on a date tie.
* The WebDAV option value, the prompted input and the constructed
  `WebDavOptions` are parameters of `Default` and `Aquire`. A directory
  listing is an abstract function from path to file names.

Two behaviours of `ScheduledRenewal.cs` worth noting:

* `History` is marked `[JsonIgnore]` in `ScheduledRenewal.cs`, so it is
  not part of the persisted view here.
* The latest successful attempt decides on its own. If its thumbprint is
  null or empty, the lookup falls back to the friendly name. It does not
  fall back to an older success that has a thumbprint.

## Model

| member | source | states |
|---|---|---|
| `DotNetStrings.IsWhiteSpaceIsListed` | letsencrypt-win-simple/ScheduledRenewal.cs:56 | `char.IsWhiteSpace` accepts exactly the 25 listed Unicode white-space characters (U+0009..U+000D, U+0020, U+0085, U+00A0, U+1680, U+2000..U+200A, U+2028, U+2029, U+202F, U+205F, U+3000) |
| `DotNetStrings.AllWhiteSpace` | letsencrypt-win-simple/ScheduledRenewal.cs:56 | true exactly when every character of the string is .NET white space |
| `DotNetStrings.IsNullOrWhiteSpace` | letsencrypt-win-simple/ScheduledRenewal.cs:56 | true exactly for null and for a string all of whose characters are white space |
| `History.OrderByDateDescending` | letsencrypt-win-simple/ScheduledRenewal.cs:107 | the sorted history is ordered by date, newest first, and is a permutation of the history |
| `History.OrderByDateDescendingIsStable` | letsencrypt-win-simple/ScheduledRenewal.cs:107 | the sort is stable: for every date, the entries with that date appear in their original list order |
| `History.Successes` | letsencrypt-win-simple/ScheduledRenewal.cs:108 | every kept entry is a success of the history, and every success of the history is kept |
| `History.SuccessesCounts` | letsencrypt-win-simple/ScheduledRenewal.cs:108 | each success is kept as many times as it occurs in the history, and no failure is kept |
| `History.SuccessesOfSingleton` | letsencrypt-win-simple/ScheduledRenewal.cs:108 | the filter keeps a single entry exactly when it succeeded |
| `History.SuccessesOfConcat` | letsencrypt-win-simple/ScheduledRenewal.cs:108 | the filter keeps list order: it distributes over concatenation, which with the single-entry case determines it on every list |
| `History.LatestIndex` | letsencrypt-win-simple/ScheduledRenewal.cs:106-110 | reference selection: a successful entry that no success postdates and that every earlier-listed success predates; none exactly when no attempt succeeded |
| `History.SortedFirstSuccessIsLatestIndex` | letsencrypt-win-simple/ScheduledRenewal.cs:106-110 | the first success after the stable descending sort is exactly the entry the reference selection picks, and none when there is no success |
| `History.LatestSuccess` | letsencrypt-win-simple/ScheduledRenewal.cs:107-110 | the entry the sort-then-filter chain settles on is `h[LatestIndex(h)]`, and none exactly when no attempt succeeded |
| `History.LatestThumbprint` | letsencrypt-win-simple/ScheduledRenewal.cs:106-110 | null for a null history or one without success; otherwise the thumbprint of the reference entry |
| `History.LatestSuccessIsUnique` | letsencrypt-win-simple/ScheduledRenewal.cs:107-110 | at most one index of a history is the latest success |
| `History.LatestThumbprintIgnoresFailures` | letsencrypt-win-simple/ScheduledRenewal.cs:108 | histories with the same successful entries in the same order yield the same thumbprint |
| `History.LatestThumbprintIgnoresFailedAttempt` | letsencrypt-win-simple/ScheduledRenewal.cs:107-108 | inserting a failed attempt anywhere in the history, with any date, leaves the thumbprint unchanged |
| `History.LatestThumbprintPermutation` | letsencrypt-win-simple/ScheduledRenewal.cs:107 | if no two successes share a date, any reordering of the history yields the same thumbprint |
| `History.LatestIndexTieBreak` | letsencrypt-win-simple/ScheduledRenewal.cs:107 | of any two successes on the same date, the one listed later is never the authoritative entry |
| `ScheduledRenewal.Persisted` | letsencrypt-win-simple/ScheduledRenewal.cs:16-91 | the persisted view together with `New`, `Test`, `Updated` and `History` rebuilds the renewal exactly, so no other property is left out of the saved form |
| `ScheduledRenewal.PersistedViewIgnoresTransient` | letsencrypt-win-simple/ScheduledRenewal.cs:16-91 | two renewals have the same persisted view exactly when they differ at most in `New`, `Test`, `Updated` and `History` |
| `ScheduledRenewal.CentralSsl` | letsencrypt-win-simple/ScheduledRenewal.cs:52-57 | `CentralSsl` holds exactly when the store location is non-null and has a non-white-space character |
| `ScheduledRenewal.CentralSslFollowsPersistedView` | letsencrypt-win-simple/ScheduledRenewal.cs:45-58 | `CentralSsl` is not stored but is determined by the persisted view |
| `ScheduledRenewal.Certificate` | letsencrypt-win-simple/ScheduledRenewal.cs:104-121 | one lookup: by a non-empty thumbprint of some successful attempt, or by the binding's host; an error only when the binding is null |
| `ScheduledRenewal.FriendlyNameQuery` | letsencrypt-win-simple/ScheduledRenewal.cs:118-119 | the lookup by the binding's host, and the null-reference failure exactly when the binding is null |
| `ScheduledRenewal.CertificateByLatestThumbprint` | letsencrypt-win-simple/ScheduledRenewal.cs:106-114 | if the latest success has a non-empty thumbprint, the lookup is by exactly that thumbprint |
| `ScheduledRenewal.CertificateWithoutSuccess` | letsencrypt-win-simple/ScheduledRenewal.cs:106-120 | a null history, or one with no success, gives the friendly-name lookup by the binding's host |
| `ScheduledRenewal.CertificateEmptyLatestThumbprint` | letsencrypt-win-simple/ScheduledRenewal.cs:106-120 | if the latest success's thumbprint is null or empty, the lookup is by friendly name, whatever older successes recorded |
| `ScheduledRenewal.CertificateQueryKind` | letsencrypt-win-simple/ScheduledRenewal.cs:111-120 | a thumbprint lookup happens exactly when the latest success has a thumbprint; otherwise the lookup is by friendly name; the two never both happen |
| `ScheduledRenewal.CertificateIgnoresFailures` | letsencrypt-win-simple/ScheduledRenewal.cs:106-110 | replacing the history by one with the same successes, in the same order, does not change the lookup |
| `ScheduledRenewal.CertificateIgnoresOrder` | letsencrypt-win-simple/ScheduledRenewal.cs:107 | with distinct dates among successes, a permutation of the history does not change the lookup |
| `ScheduledRenewal.CertificateScenarioNewestSuccess` | letsencrypt-win-simple/ScheduledRenewal.cs:106-114 | successes "A" (older) and "B" (newer) plus a newest failure: the lookup is by "B" |
| `ScheduledRenewal.CertificateScenarioTie` | letsencrypt-win-simple/ScheduledRenewal.cs:107-110 | successes "A" then "B" on the same date: the lookup is by "A" |
| `WebDav.CanValidate` | letsencrypt-win-simple/Plugins/ValidationPlugins/Http/WebDav.cs:15 | the plugin applies exactly when the web root is null, empty, or starts with two backslashes |
| `WebDav.CanValidateUncPath` | letsencrypt-win-simple/Plugins/ValidationPlugins/Http/WebDav.cs:15 | a `\\server\share` web root is accepted |
| `WebDav.CanValidateRefusesLocalPaths` | letsencrypt-win-simple/Plugins/ValidationPlugins/Http/WebDav.cs:15 | a drive path and a path with a single leading backslash are refused |
| `WebDav.Default` | letsencrypt-win-simple/Plugins/ValidationPlugins/Http/WebDav.cs:51-55 | a non-empty web root is kept, an empty one becomes the configured value; the credentials are always replaced; nothing else changes (`base.Default` is not modelled) |
| `WebDav.Aquire` | letsencrypt-win-simple/Plugins/ValidationPlugins/Http/WebDav.cs:61-69 | a non-empty web root is kept, an empty one becomes the entered value; the credentials are always replaced; nothing else changes (`base.Aquire` is not modelled) |
| `WebDav.DefaultIdempotent` | letsencrypt-win-simple/Plugins/ValidationPlugins/Http/WebDav.cs:51-55 | a second `Default` with the same configured value leaves the web root as the first set it, and with the same credentials leaves the whole target unchanged |
| `WebDav.IsEmpty` | letsencrypt-win-simple/Plugins/ValidationPlugins/Http/WebDav.cs:38-41 | true exactly when the listing for the path contains no file |

## Left out

- WebDAV `WriteFile`, `DeleteFile` and `DeleteFolder`, and the failure of `GetFiles` under `IsEmpty`: network I/O through `WebDavClient`, which is not part of this model. The listing is a total function, so a network or credential error while listing is not modelled.
- The store lookups `FindByThumbprint` / `FindByFriendlyName`: store internals are not part of this model, so the result is the query issued, not a certificate.
- JSON (de)serialisation, including the `CentralSsl` property rename: library behaviour. Only the split into persisted and ignored properties is modelled.
- `ToString`: locale-dependent date formatting.
- `TryGetRequiredOption`, `TryGetOption`, interactive prompting and `WebDavOptions` construction: their results are parameters. Whether a missing required option throws is not modelled.
- `base.Default` / `base.Aquire` of `HttpValidation`: the base class is not part of this model.
- Autofac registration and the factory's `Instance` type: reflection plumbing. `Name`, `Description` and `ChallengeType` are kept as constants.
- The `Target` class is not part of this model. `Target` holds only the fields the renewal and WebDAV logic read or write, plus a few identifying ones, so that "nothing else changes" can be stated.
- A null entry inside the history list (the C# lambdas would throw): entries are modelled as non-null values.
- WebDav.CanValidate: `StartsWith(string)` in .NET compares culture-sensitively. It is modelled as an ordinal prefix test, because the culture tables are not modelled.
