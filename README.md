# kkcity in Dafny

kkcity turns Google place ids into city and country names in several languages and keeps
them in PostgreSQL. This project models its storage and provider layers. Both generations
of that code are covered.

- **Languages.** Language codes are configured once. The callers must give ISO 639-1
  codes, i.e. ASCII letters; the code checks only that each has two characters, and
  lowercases it. Each code picks the columns `name_<lang>` (both tables)
  and `address_<lang>` (cities). `language.go` and `db/db.go` each hold such a list. The
  first is reset on every configuration; the second only grows.
- **Schema preparation.** This runs once at startup, in one transaction. It creates
  `country_info` and `city_info` if they are missing. For every language whose name column
  is not there yet, it adds the column(s). Any failure panics before the commit. The
  existence check goes through the pool, so it sees the committed schema, while the
  `ALTER`s go to the transaction. The model keeps that distinction:
  - re-running the preparation, or configuring the same codes again, changes nothing;
  - on an empty database the preparation succeeds exactly when no code is listed twice.

  Both statements are about lowercase letter codes (ISO 639-1), the only ones either store
  is given (see "Left out" on identifier case).
- **Country and city stores.** The database is modelled as values:
  - a schema, `map<table, set<column>>`;
  - a countries table, id to per-language cells;
  - a cities table, placeid to country id and per-language cells.

  Each SQL statement is a function on those values, and both store generations
  (`db.go`, and `db/countrydb.go` with `db/citydb.go`) are classes over that state. A NULL
  cell reads as `""`. The second generation picks the language by an index and can also
  fail with `ErrLanguageIndex`.
- **Provider answers.** The three calls of `request.go` and the one of `request/request.go`
  are modelled from the point where the HTTP answer has arrived: a transport failure, an
  HTTP status, and the decoded body. From there, the status decides the error, and on
  `"OK"` the fields are read out of the body. `getString` (identical in both files) finds
  the first address component of a given type.

Modules: `Base` (Option, Result, the store errors), `Ascii` (case mapping), `Language`,
`Schema`, `Storage` (rows and statements), `KkcityDb` (`db.go`), `Db` (the `db` package),
`Geocoding` (shared provider shapes and `getString`), `KkcityRequest` (`request.go`),
`Request` (`request/request.go`).

Behaviour of the code worth noting, which the model follows:

- Adding a city that already exists is silently accepted in both generations. There is no
  "city exists" error, and the insert takes no name or address.
- `updateCountryInfo` and `UpdateCountryInfo` match the id exactly, without uppercasing
  it. An id holding a lowercase letter never matches a row, and reports no error.
- `requestPlaceInfo` does not return the rate-limit sentinel. On `OVER_QUERY_LIMIT` it
  returns a freshly made error; on an unknown status it returns no error and four empty
  fields.
- `getCountries` and `GetCountries` discard the query's error. A missing language column
  yields two empty lists and no error.

## Model

| member | source | states |
|---|---|---|
| Ascii.Upper | db.go:174 | same length; each lowercase ASCII letter mapped to its capital, every other character kept; no lowercase letter remains |
| Ascii.Lower | language.go:22 | same length; each capital ASCII letter mapped to its lowercase form; no capital remains |
| Ascii.UpperIdempotent | db.go:195 | an id stored uppercased is found again by uppercasing it once more |
| Ascii.LowerIdempotent | language.go:22 | a configured code is already its own lowercase form |
| Ascii.LowerOfLetters | language.go:22 | lowercasing a code written in ASCII letters gives lowercase letters only |
| Ascii.UpperIgnoresCase | db/countrydb.go:97 | ids that differ only in letter case look up the same row |
| Language.CheckedPrefix | language.go:18-21 | how far the configuration loop gets: every code before it has length 2, and the one it stops at does not |
| Language.LoweredAreCodes | language.go:15-22 | every letter code that passes the length check is stored as two lowercase letters |
| Language.Registry.constructor | language.go:9 | no language is configured before setupLanguage |
| Language.Registry.SetupLanguage | language.go:15-24 | given letter codes, as ISO 639-1 asks of the callers: the old list is discarded; ok exactly when every code has length 2; the list holds the lowercased codes up to the first bad one; on success, index j resolves to the lowercased j-th code |
| Language.Registry.GetLanguage | language.go:27-33 | succeeds exactly for 0 <= tp < length, with the code at tp; otherwise ErrLanguageIndex |
| Language.Registry.GetAll | language.go:36-38 | one entry per valid index, each the code that index resolves to |
| Schema.NameColumn | db.go:151-154 | the column is "name_" followed by the code, so the code can be read back from it |
| Schema.AddressColumn | db.go:108-111 | the column is "address_" followed by the code, so the code can be read back from it |
| Schema.ColumnNamesDistinct | db.go:108-111 | distinct languages get distinct columns; a name column is never an address column or a key column |
| Schema.CountryColumnsAddedShape | db.go:96-105 | the country loop touches only the country table, only adds columns, and leaves each language's name column present or already committed |
| Schema.CityColumnsAddedShape | db.go:70-82 | the city loop touches only the city table, only adds columns, keeps each name column paired with its address column, and leaves each language's pair present or already committed |
| Schema.CountryColumnsNoOp | db.go:99-104 | when every name column is committed, the country loop alters nothing |
| Schema.CityColumnsNoOp | db.go:73-81 | when every city name column is committed, the city loop alters nothing |
| Schema.PreparedReady | db.go:24-34 | a committed preparation keeps every table and column, stays well formed, and gives every language all its columns |
| Schema.PreparedNoOp | db.go:24-34 | on a schema that already has every column, preparation commits it unchanged |
| Schema.PreparedIdempotent | db/db.go:36-44 | preparing again after a successful preparation commits the same schema |
| Schema.RepeatedPrepareKeepsSchema | db/db.go:22-33 | a second Use with the same codes, which doubles the list, leaves the schema as the first left it |
| Schema.FreshCountryColumns | db.go:96-105 | with no committed country table, the country loop succeeds exactly when the codes are distinct and none has a column yet |
| Schema.FreshCityColumns | db.go:70-82 | with no committed city table, the city loop succeeds exactly when the codes are distinct and none has a column yet |
| Schema.FreshPrepareSucceedsIffDistinct | db.go:24-34 | on an empty database, preparation succeeds exactly when no code is configured twice |
| Storage.InsertCountry | db.go:172-179 | succeeds exactly when the columns exist and the id is new, adding only that row with only that language's name; ErrCountryExisted exactly for a stored id; on error nothing changes; other rows are never touched |
| Storage.SelectCountry | db.go:193-203 | no error exactly when the columns exist; existed exactly when the row exists; the name is its cell, "" when NULL or absent |
| Storage.UpdateCountry | db.go:210-213 | the same ids remain; only the row of that id changes, in only that language's cell; a missing column is an error and no change |
| Storage.InsertCity | db.go:115-121 | succeeds exactly when the table exists; a new placeid gets a row with its country and no text; an existing placeid is left as it was; other rows are never touched |
| Storage.SelectCity | db.go:129-138 | no error exactly when the columns exist; existed exactly when the row exists; name and address are its cells, "" when NULL or absent |
| Storage.UpdateCity | db.go:145-148 | the same placeids remain; only the row of that placeid changes, in only that language's name and address, keeping its country |
| Storage.CheckCountryId | db.go:157-162 | no error exactly when the id has two characters; otherwise ErrCountryID |
| Storage.AddedCountryReads | db.go:165-182 | an added country reads back as existing with its name in its language, and with "" in every other language |
| Storage.SecondAddCountryFails | db.go:175-179 | adding a stored id again, in any language with any name, is ErrCountryExisted and no change |
| Storage.UpdatedCountryReads | db.go:207-214 | an update changes only the lookup of that id and language, and only when the row exists |
| Storage.InsertCityIdempotent | db.go:114-122 | adding a city twice leaves the table and the error as adding it once |
| Storage.AddedCityReads | db.go:131-138 | a new city exists in every language with empty name and address |
| Storage.UpdatedCityReads | db.go:142-149 | an update changes only that placeid's name and address in that language |
| Storage.InsertKeepsKeysNormal | db.go:173-175 | adding under the uppercased id keeps every stored id two characters long and uppercase |
| Storage.LowercaseUpdateMissesRow | db.go:207-214 | an update with an id holding a lowercase letter changes nothing and reports no error |
| Schema.CreateTable | db.go:59-64 | CREATE TABLE IF NOT EXISTS: afterwards the table exists; an existing table keeps its columns, a new one has just its key columns; other tables are untouched |
| Schema.AddColumn | db.go:102 | ALTER TABLE ... ADD succeeds exactly when the table exists without that column, and then the table gains that one column and nothing else changes; otherwise it fails (the code panics) |
| Schema.CountryColumnsAdded | db.go:96-105 | the country column loop: when no ALTER fails, the transaction keeps its tables and every column, and only the country table can gain columns |
| Schema.CityColumnsAdded | db.go:70-82 | the city column loop: when no ALTER fails, the transaction keeps its tables and every column, and only the city table can gain columns |
| Schema.Prepared | db.go:24-34 | a preparation that commits leaves both tables present, keeps every table and column of the committed schema and adds no other table |
| Storage.Text | db.go:131-138 | a NullString read: a present cell reads as its text, and a non-empty reading comes from a present cell (NULL reads as "") |
| KkcityDb.Store.Use | db.go:24-34 | ok exactly when the preparation of the committed schema succeeds; then the schema is that result, extends the old one and serves every language; otherwise nothing changes |
| KkcityDb.Store.CheckDbColumnExisted | db.go:37-54 | true exactly when the committed table has that column |
| KkcityDb.Store.PrepareCountry | db.go:85-106 | the loop computes the country-column preparation of the transaction's schema, with the existence check made against the committed schema |
| KkcityDb.Store.PrepareCity | db.go:56-83 | the loop computes the city-column preparation of the transaction's schema, with the existence check made against the committed schema |
| KkcityDb.Store.AddCityInfo | db.go:114-122 | a stored placeid is no change and no error; a new one then reads as existing with empty text in every language the table serves |
| KkcityDb.Store.GetCityInfo | db.go:126-139 | no error exactly when the columns exist; existed exactly when the row exists; name and address are the cells, "" when unset or absent |
| KkcityDb.Store.UpdateCityInfo | db.go:142-149 | that placeid and language reads back the new pair; every other placeid or language reads as before |
| KkcityDb.Store.AddCountry | db.go:165-182 | a bad id length is ErrCountryID with no change; otherwise the id is inserted uppercased; on success, it reads back with the name in that language and "" in the others |
| KkcityDb.Store.GetCountryName | db.go:185-204 | ErrCountryID exactly for a bad id length; otherwise no error exactly when the column exists, ErrUndefinedColumn when not; existed exactly when the uppercased id is stored; the name is its cell, "" when unset |
| KkcityDb.Store.UpdateCountryInfo | db.go:207-214 | only the row with exactly that id changes; an unknown id, or one holding a lowercase letter, changes nothing |
| KkcityDb.Store.GetCountries | db.go:217-237 | never an error; with the column present, every stored id exactly once, each with its name in that language; without it, two empty lists |
| Db.Store.Use | db/db.go:21-33 | given letter codes, as ISO 639-1 asks of the callers: the lowercased codes up to the first bad one are appended to the existing list; a bad code is LanguagePanic; otherwise it is Configured exactly when preparation for the whole list succeeds, and the schema then serves every listed language |
| Db.Store.AppendLanguages | db/db.go:21-28 | given letter codes: ok exactly when every code has length 2; the list grows by the lowercased codes before the first bad one |
| Db.Store.PrepareDb | db/db.go:36-44 | committed exactly when preparation for the list succeeds, and then every listed language has its columns; otherwise the schema is unchanged |
| Db.Store.CheckColumnExisted | db/db.go:47-64 | true exactly when the committed table has that column |
| Db.Store.PrepareCountry | db/countrydb.go:18-40 | the loop over language indices computes the country-column preparation of the transaction's schema |
| Db.Store.PrepareCity | db/citydb.go:10-38 | the loop over language indices computes the city-column preparation of the transaction's schema |
| Db.Store.GetCountryColumnName | db/countrydb.go:43-50 | succeeds exactly for an index in range, naming that language's name column; otherwise ErrLanguageIndex |
| Db.Store.GetCityColumnNames | db/citydb.go:41-48 | succeeds exactly for an index in range, naming that language's name and address columns; otherwise ErrLanguageIndex |
| Db.Store.AddCountry | db/countrydb.go:61-81 | the id is checked before the index, both before storage; on success the country reads back with its name at that index and "" at other languages |
| Db.Store.GetCountryName | db/countrydb.go:84-106 | ErrCountryID exactly for a bad id; ErrLanguageIndex exactly for a good id with a bad index; otherwise no error exactly when the column exists, ErrUndefinedColumn when not; existed exactly when the uppercased id is stored, with its name |
| Db.Store.UpdateCountryInfo | db/countrydb.go:109-118 | a bad index is ErrLanguageIndex with no change; the id is matched exactly, so one holding a lowercase letter changes nothing |
| Db.Store.GetCountries | db/countrydb.go:121-144 | a bad index is ErrLanguageIndex and two empty lists; otherwise no error, and every stored id once with its name, or two empty lists without the column |
| Db.Store.AddCityInfo | db/citydb.go:51-59 | a stored placeid is no change and no error; a new one reads as existing with empty text at every served index |
| Db.Store.GetCityInfo | db/citydb.go:63-79 | a bad index is ErrLanguageIndex whatever the placeid; otherwise no error exactly when the columns exist (ErrUndefinedColumn when not), and the three-state answer of the row |
| Db.Store.UpdateCityInfo | db/citydb.go:82-89 | with an index in range, that placeid and language reads back the new pair, and every other placeid or language reads as before |
| Geocoding.GetString | request.go:73-85 | the short or long name of the first component having the type, with true; when nothing is found the text is "" (request/request.go:16-28 is the same function) |
| Geocoding.GetStringFindsFirst | request.go:73-85 | getString finds something exactly when some component has the type; the text is the short or long name of the first such component; "" otherwise (request/request.go:16-28 is the same function) |
| Geocoding.Decoded | request.go:95-103 | a transport error comes first, then an HTTP status other than 200, then an undecodable body; only a decoded 200 answer goes on to its status |
| Geocoding.ShortAndLongFromSameComponent | request.go:176-177 | the short and the long lookup of one type read the same component |
| KkcityRequest.RequestLocationWithLatLng | request.go:90-115 | transport, HTTP-status and decoding errors come first; ErrNoPlace exactly for ZERO_RESULTS, ErrLimitation exactly for OVER_QUERY_LIMIT, the first result's place id exactly for OK, "Unhandled result." otherwise |
| KkcityRequest.RequestAutoComplete | request.go:119-152 | no error exactly for OK, and then the place ids and descriptions of all predictions, in order; every error gives two empty lists; the same status-to-error mapping as the reverse lookup |
| KkcityRequest.RequestPlaceInfo | request.go:155-183 | OVER_QUERY_LIMIT gives a new "Request too many." error, never ErrLimitation; an unknown status gives no error and four empty fields; OK gives the country code and name, the locality and the address |
| KkcityRequest.PlaceInfoCountryConsistent | request.go:175-180 | the country code and country name come from one component, and are both empty when the answer holds no country |
| Request.GetLocationWithLatLng | request/request.go:32-66 | errors before decoding come first; on OK, the first result's formatted address, place id and locality short name; ZERO_RESULTS is ErrNoPlace; OVER_QUERY_LIMIT is a new error, never ErrLimitation |
| Request.GenerationsAgreeExceptOnLimit | request/request.go:50-64 | on the same answer, both generations of reverse geocoding return the same place id or the same error, except OVER_QUERY_LIMIT: ErrLimitation in one, a new error in the other |

## Left out

- The database is abstracted to tables and columns as values. pgx, the connection pool,
  SQL text and `information_schema` are not modelled. `CREATE INDEX` on `city_info` changes
  no column and is not modelled.
- Storage errors other than a statement naming a missing table or column are left out:
  connection loss, scan failures, transaction begin and commit failures. A uniqueness
  violation (`23505`) is the "key already present" branch of the insert functions.
- Panics are not modelled as process termination:
  - `setupLanguage`, the `db` package's `Use` and the schema preparation report a failure
    outcome and keep the state the code leaves behind;
  - `Db.Store.UpdateCityInfo`: an out-of-range index panics in the code, and is a
    precondition in the model.
- The assignment of the pool to the package variable (`use`, `Use`) has no counterpart.
  The pool is the database state of a `Store`.
- KkcityDb.Store.Use: requires codes of two lowercase ASCII letters, and so does every
  `KkcityDb.Store` operation that takes a language. PostgreSQL folds unquoted identifiers
  to lowercase, so `name_EN` would name the column `name_en`. The model compares column
  names as written and does not model that folding. The callers always pass codes from the
  lowercased list, and the second generation keeps only lowercase letter codes in its own list.
- Db.Store.Use: requires codes written in ASCII letters, which the code asks of its
  callers (ISO 639-1) but checks only for length. A code holding another character
  (`"e-"`, `"e "`) would put a column name into the `ALTER` text that PostgreSQL rejects
  or reads as another column. The model compares names as written and does not capture
  that.
- Db.Store.AppendLanguages: requires letter codes, for the same reason as `Db.Store.Use`.
- Language.Registry.SetupLanguage: requires letter codes, for the same reason; a stored
  code is two lowercase ASCII letters.
- Case mapping is ASCII-only, while `strings.ToUpper` and `strings.ToLower` map all of
  Unicode. Lengths count characters, while Go's `len` counts UTF-8 bytes. The two agree on
  ASCII input.
- HTTP is not modelled: gorequest, URL building, the API key, the 10-second timeout,
  float formatting of coordinates and JSON decoding. A call's input is a `Fetched` answer
  (transport failure, or HTTP status and decoded body). The exact transport and decoding
  error values collapse to one constructor each.
- `KkcityRequest.RequestLocationWithLatLng` and `Request.GetLocationWithLatLng` require a
  non-empty result list for status `"OK"`. The code indexes the first result unchecked,
  relying on the provider's guarantee, and would panic otherwise.
- `ErrNoPlace` and `LatLngResult` are used in `request/request.go` but are not part of this
  model's files. `ErrNoPlace` is taken to be the same "no place" error as kkcity's.
  `request/model.go` is reproduced only as datatypes.
- `kkcity.go` is only wiring (configure the languages, keep the key, call `use`) and is
  not part of this model.
- Nothing that combines the stores with the provider calls is modelled. Racing inserts
  are left out.
- The test files are not modelled. They call functions not present in the modelled code,
  which are therefore left out: a five-argument `addCityInfo` with `ErrCityExisted`,
  `getCountryCities`, a two-argument `AddCountry`, a zero-argument `GetCountries` and
  `CheckCountryExisted`.
- `KkcityDb.Store.GetCountries` and `Db.Store.GetCountries` return the rows in some
  order. The table's physical order is not modelled.
