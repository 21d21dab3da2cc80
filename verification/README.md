# ERDB database-access layer, modelled in Dafny

This project models the core of ERDB, a Java database-access layer that sits on a
JDBC driver for SQLite or MySQL. The model covers these parts:

- the engine adapters: connecting, type-name parsing and identifier quoting;
- `SqlBuffer`, the statement text builder;
- the typed value holders (`DbValue` and its subclasses) with their null flag and
  their storage codecs (the `DbDoubleArray` blob, the `DbLocation` sortable string and
  the `DoubleInputStream` blob reader);
- table metadata loading (`DbTable.load`) and the connection's descriptor cache;
- the transaction helper, the dependency-ordered `clearTables`, batched deletes and
  `scriptUpdate`;
- `DbRecord` and its accessors;
- the path-based query builder `DbQuery` and its record iterator;
- the batched update and insert machinery (`DbBaseUpdate`, `DbUpdate`, `DbLoader`);
- the map and set stream collectors.

The model is pure: a connection is a value holding the engine, the auto-commit flag,
the descriptor cache and a trace of the driver calls made so far (`Driver.Event`).
The driver is never called. What it would return is a parameter:

- the schema metadata, as a function from table name to `Metadata`;
- the result rows, as `Cell` sequences;
- the failure of a batch execution.

Doubles are 64-bit patterns (`Bits64`). Java `int` is an `Int32` with explicit
wrap-around (`JavaInts.WrapInt32`). Java integer division truncates toward zero
(`JavaInts.TruncDiv`). Failures are `Result`, `Outcome` or `Conv` values that carry
the Java exception's message.

Three helpers that the query builder calls are parameters, gathered in `Queries.Env`:
the schema, `DbType.isComparable`, and `Link.store`, which writes a join condition.

Where the code and its documentation disagree, the model follows the code:

- A table with no columns is a null descriptor (`Ok(None)`), not an error.
- A date does not round-trip to the second. It goes through a fractional day count in
  floating point.
- A location comes back with its contig padded to 31 characters.
- `DbBoolean.set` does not clear the null flag (see Findings).

## Model

| member | source | states |
|---|---|---|
| Adapters.OpenSqlite | src/main/java/org/theseed/java/erdb/sqlite/SqliteDbConnection.java:57-62 | A connection is refused, with the source's message, exactly when no database file is given; otherwise the engine is SQLite on that file. |
| Adapters.OpenMysql | src/main/java/org/theseed/java/erdb/mysql/MysqlDbConnection.java:48-54 | A connection is refused exactly when no URL is given. The database name is the text after the URL's last '/', or empty when there is none, and holds no '/'. The connect string is the one `buildConnector` builds. |
| Adapters.ConnectStringRoundTrip | src/main/java/org/theseed/java/erdb/mysql/MysqlDbConnection.java:64-74 | The URL can be read back from the connect string, whatever parameters follow it. |
| Adapters.SqliteParseType | src/main/java/org/theseed/java/erdb/sqlite/SqliteDbConnection.java:77-90 | For each result type, the exact condition on the type name that gives it. An "INT" anywhere wins, the fallback is DOUBLE, and the parse never fails. |
| Adapters.SqliteTypeNameRoundTrip | src/main/java/org/theseed/java/erdb/sqlite/SqliteDbConnection.java:77-90 | Every type the SQLite parser can produce has a column type name that parses back to it. |
| Adapters.MysqlParseType | src/main/java/org/theseed/java/erdb/mysql/MysqlDbConnection.java:87-113 | Each type is returned exactly when the upper-cased primitive is one of that type's listed names. Any other primitive is refused with "Unsupported field type". |
| Adapters.MysqlPrimitiveOf | src/main/java/org/theseed/java/erdb/mysql/MysqlDbConnection.java:87-113 | The primitive of an upper-case name is the name itself, also with a length modifier and also in lower case. |
| Adapters.MysqlTypeNameRoundTrip | src/main/java/org/theseed/java/erdb/mysql/MysqlDbConnection.java:87-113 | MySQL parses each of its type names back to its type, with any length modifier and in either case. |
| Adapters.ParseType | src/main/java/org/theseed/java/erdb/DbType.java:23-25 | A type name is parsed by the parser of the connected engine. |
| Adapters.Quote | src/main/java/org/theseed/java/erdb/sqlite/SqliteDbConnection.java:93-95 | A quoted name is the name unchanged between the engine's opening and closing quote characters. |
| Adapters.QuoteRoundTrip | src/main/java/org/theseed/java/erdb/mysql/MysqlDbConnection.java:116-119 | Quoting and unquoting are inverse to each other, in both directions. |
| Adapters.Catalog | src/main/java/org/theseed/java/erdb/sqlite/SqliteDbConnection.java:98-100 | Neither engine names a catalog. |
| Adapters.Schema | src/main/java/org/theseed/java/erdb/mysql/MysqlDbConnection.java:127-129 | SQLite has no schema. MySQL's schema is the database name. |
| DbTypes.ParseCustom | src/main/java/org/theseed/java/erdb/DbType.java:34-53 | A custom type name parses exactly when it is the name of one of the custom constants, and then to that constant. Anything else fails with the "Invalid custom type" message. |
| SqlBuffers.New | src/main/java/org/theseed/java/erdb/SqlBuffer.java:29-52 | A new buffer has empty text and no marks, and sits at the start of a list with the default delimiter. |
| SqlBuffers.Append | src/main/java/org/theseed/java/erdb/SqlBuffer.java:88-91 | Appending extends the text and leaves the mark count and list state alone. |
| SqlBuffers.QuoteName | src/main/java/org/theseed/java/erdb/SqlBuffer.java:61-64 | The name is appended between the engine's quote characters, and no mark is counted. |
| SqlBuffers.QuoteQualified | src/main/java/org/theseed/java/erdb/SqlBuffer.java:74-79 | Appends the quoted table, a dot, then the quoted field. |
| SqlBuffers.QuoteQualifiedParts | src/main/java/org/theseed/java/erdb/SqlBuffer.java:74-79 | When the table name has no dot, the qualified text splits at its first dot back into the table and the field. |
| SqlBuffers.Clear | src/main/java/org/theseed/java/erdb/SqlBuffer.java:98-102 | Clearing empties the text and resets the mark count. The engine is kept. |
| SqlBuffers.AddMarkList | src/main/java/org/theseed/java/erdb/SqlBuffer.java:111-120 | A count that is not positive is refused with the source's message and nothing changes. Otherwise the mark list is appended and `count` marks are counted. |
| SqlBuffers.MarkListShape | src/main/java/org/theseed/java/erdb/SqlBuffer.java:111-120 | A mark list of n marks is 3n characters long, in parentheses, and holds n '?' and n - 1 commas. |
| SqlBuffers.AddFields | src/main/java/org/theseed/java/erdb/SqlBuffer.java:129-137 | An empty name list is refused. Otherwise the parenthesised field list is appended and the mark count is untouched. |
| SqlBuffers.FieldListCommas | src/main/java/org/theseed/java/erdb/SqlBuffer.java:129-137 | A field list of comma-free names holds one comma fewer than it has names. |
| SqlBuffers.DelimitedList | src/main/java/org/theseed/java/erdb/DbUpdate.java:141-155 | A list started with a delimiter and filled item by item reads as the items joined by that delimiter. |
| Holders.Create | src/main/java/org/theseed/java/erdb/types/DbDate.java:26-35 | A fresh holder is not null and has its type's default value: 0, "", false, the epoch, or an empty array. |
| Holders.SetValueAsWritten | src/main/java/org/theseed/java/erdb/types/DbBoolean.java:84-86 | The typed `set` as written stores the value, and leaves the holder null exactly when it is a boolean that was null. |
| Holders.SetValue | src/main/java/org/theseed/java/erdb/types/DbDoubleArray.java:126-129 | The corrected `set` stores the value and clears the null flag. It agrees with the as-written `set` except on a null boolean holder. |
| Holders.SetNull | src/main/java/org/theseed/java/erdb/DbBaseUpdate.java:276-279 | `setNull` raises the flag and leaves the payload. |
| Holders.Store | src/main/java/org/theseed/java/erdb/types/DbBoolean.java:48-51 | Binding writes to the holder's own slot. It writes an SQL NULL of the holder's type exactly when the holder is null. |
| Holders.Fetch | src/main/java/org/theseed/java/erdb/types/DbDoubleArray.java:94-99 | A fetch keeps the holder's type and takes the null flag from the driver's was-null signal. Only array and location holders can fail. |
| Holders.StoreFetchRoundTrip | src/main/java/org/theseed/java/erdb/types/DbDoubleArray.java:86-99 | Storing a non-null holder and fetching it back gives the same value. Locations come back with the contig padded, and dates come back through the floating-point day conversion. |
| Holders.StoreFetchNull | src/main/java/org/theseed/java/erdb/types/DbLocation.java:54-65 | A stored null is fetched back as null. Array and location holders cannot decode a null and fail. |
| Holders.SetThenStore | src/main/java/org/theseed/java/erdb/types/DbDate.java:91-94 | After the corrected `set`, the holder binds the value it was given, for every type. |
| Holders.BooleanSetKeepsNull | src/main/java/org/theseed/java/erdb/types/DbBoolean.java:84-86 | As written, a null boolean holder still binds NULL after `set(true)` or `set(false)`. The corrected `set` binds 1 or 0. |
| Holders.GetInt | src/main/java/org/theseed/java/erdb/types/DbBoolean.java:60-62 | A boolean's integer is 1 or 0, an integer holder gives its value, and an array holder refuses with its message. |
| Holders.DateDays | src/main/java/org/theseed/java/erdb/types/DbDate.java:66-69 | A date's integer is its whole days since the epoch, rounded toward the epoch. Before 1970 and off midnight, this is one more than the floor. |
| Holders.GetString | src/main/java/org/theseed/java/erdb/types/DbBoolean.java:70-72 | A boolean reads as "Y" or "", a string holder gives its value, and an array holder refuses. |
| Holders.GetDouble | src/main/java/org/theseed/java/erdb/types/DbDoubleArray.java:106-109 | An array holder refuses the double conversion with its message. |
| Holders.ArrayHasNoScalarForm | src/main/java/org/theseed/java/erdb/types/DbDoubleArray.java:101-114 | All three scalar accessors refuse an array holder, each with a different message. |
| Holders.BooleanForms | src/main/java/org/theseed/java/erdb/types/DbBoolean.java:48-72 | A boolean's integer form is non-zero, and its string form is "Y", exactly when it holds true. It survives a store and a fetch. |
| Locations.StringToLoc | src/main/java/org/theseed/java/erdb/types/DbLocation.java:83-90 | A null string fails with a null-pointer error. A decoded location has a non-empty contig without ':' and 32-bit positions. |
| Locations.EncodingWidth | src/main/java/org/theseed/java/erdb/types/DbLocation.java:72-76 | Within range, the encoding is 52 characters with the ':' at position 31. |
| Locations.LocRoundTrip | src/main/java/org/theseed/java/erdb/types/DbLocation.java:72-90 | Decoding an encoding gives back the left end, the strand and the length, and the contig padded to 31 characters. |
| Locations.LocOrder | src/main/java/org/theseed/java/erdb/types/DbLocation.java:67-76 | For printable contigs within range, string order of encodings is positional order (contig, left, strand, length), and equal encodings mean equal locations. |
| DoubleArrays.DoubleToBytes | src/main/java/org/theseed/java/erdb/types/DbDoubleArray.java:60-67 | The blob has eight bytes per element, each element's big-endian bytes in element order. |
| DoubleArrays.BytesToDouble | src/main/java/org/theseed/java/erdb/types/DbDoubleArray.java:76-84 | There is one element per whole group of eight bytes, read big-endian. A short tail is ignored. |
| DoubleArrays.DecodeEncode | src/main/java/org/theseed/java/erdb/types/DbDoubleArray.java:60-84 | Decoding an encoded array gives it back bit for bit. |
| DoubleArrays.EncodeDecode | src/main/java/org/theseed/java/erdb/types/DbDoubleArray.java:60-84 | Encoding a decoded blob gives back its whole eight-byte groups. |
| Streams.Open | src/main/java/org/theseed/java/erdb/DoubleInputStream.java:34-41 | A new stream has handed out nothing, and its first read loads element 0. |
| Streams.Read | src/main/java/org/theseed/java/erdb/DoubleInputStream.java:43-62 | At the end a read returns -1 and changes nothing. Before it, a read hands out exactly one more byte. |
| Streams.ReadValue | src/main/java/org/theseed/java/erdb/DoubleInputStream.java:43-62 | Before the end, a read returns the next byte of the pattern loaded for the next element. |
| Streams.ElementsYield | src/main/java/org/theseed/java/erdb/DoubleInputStream.java:43-62 | The first 8k reads return the bytes of the patterns of elements 0 to k-1, in order. |
| Streams.EndIsFinal | src/main/java/org/theseed/java/erdb/DoubleInputStream.java:45-49 | Once every byte has been read, `read` keeps returning -1. |
| Streams.IndexBitsValue | src/main/java/org/theseed/java/erdb/DoubleInputStream.java:52 | The pattern `putDouble(0, arrayIdx)` stores is the IEEE 754 double of the index. |
| Streams.IndexNotValue | src/main/java/org/theseed/java/erdb/DoubleInputStream.java:52 | As written, a stream over [1.0] starts with byte 0 (from the index 0.0), where the intended stream starts with 0x3F. |
| Streams.EarlyEndOfStream | src/main/java/org/theseed/java/erdb/DoubleInputStream.java:58 | As written, an array of more than 4351 elements returns -1 mid-stream, at the third byte of element 4351, whose pattern is 0x40B0_FF00_0000_0000. |
| Streams.IntendedByteRange | src/main/java/org/theseed/java/erdb/DoubleInputStream.java:43-62 | Read the intended way, every value is in -1..255, and -1 is returned exactly at the end of the stream. |
| Streams.IntendedRoundTrip | src/main/java/org/theseed/java/erdb/DoubleInputStream.java:43-62 | Read the intended way, the stream returns exactly the `DbDoubleArray` blob of the array and then -1, and decoding that blob gives the array back. |
| Collectors.KeyOfMeaning | src/main/java/org/theseed/erdb/utils/MapCollector.java:37-47 | A record's key is the string form of its key field. A missing field or a failed read becomes an unchecked exception. |
| Collectors.MapAccumulate | src/main/java/org/theseed/erdb/utils/MapCollector.java:37-47 | The accumulator puts the record under its key and keeps every other key's record. It fails exactly when the key cannot be read. |
| Collectors.MapCombine | src/main/java/org/theseed/erdb/utils/MapCollector.java:50-55 | The merged map has both maps' keys. On a shared key the second map wins. |
| Collectors.MapCollectContents | src/main/java/org/theseed/erdb/utils/MapCollector.java:32-60 | The collected map has exactly the records' keys, each under the last record that bears it. It fails exactly when some key cannot be read. |
| Collectors.MapCollectSplit | src/main/java/org/theseed/erdb/utils/MapCollector.java:50-55 | Collecting two consecutive parts and merging them gives the map of the whole stream. A failure in the first part is the failure of the whole. |
| Collectors.SetAccumulate | src/main/java/org/theseed/erdb/utils/SetCollector.java:34-43 | The accumulator adds the record's key. It fails exactly when the key cannot be read. |
| Collectors.SetCombine | src/main/java/org/theseed/erdb/utils/SetCollector.java:46-51 | The merge is the union. |
| Collectors.SetCollectContents | src/main/java/org/theseed/erdb/utils/SetCollector.java:29-56 | The collected set holds exactly the records' keys. It fails exactly when some key cannot be read. |
| Collectors.SetCollectSplit | src/main/java/org/theseed/erdb/utils/SetCollector.java:46-51 | Collecting two consecutive parts and taking the union gives the set of the whole stream. |
| Collectors.SetIsMapKeys | src/main/java/org/theseed/erdb/utils/DbCollectors.java:19-34 | The set collector gathers exactly the key set of the map collector, and fails exactly when and how it fails. |
| Connections.GetTable | src/main/java/org/theseed/java/erdb/DbConnection.java:617-627 | A descriptor cached under the lower-cased name is returned as is. Otherwise the table is loaded, and only a table that exists is added to the cache. |
| Connections.GetTableKeepsValid | src/main/java/org/theseed/java/erdb/DbConnection.java:617-627 | Lookups only ever cache well-formed descriptors. |
| Connections.GetTableCached | src/main/java/org/theseed/java/erdb/DbConnection.java:617-627 | Once found, a table is returned again under any spelling with the same lower-case form. No load happens and the connection is unchanged, even if the schema changed since. |
| Connections.MissingTableNotCached | src/main/java/org/theseed/java/erdb/DbConnection.java:617-627 | A missing table is not cached, so every later request loads it again. |
| Connections.GetTableNames | src/main/java/org/theseed/java/erdb/DbConnection.java:473-482 | The table names are exactly the reported names that do not start with '_'. |
| Connections.TableNamesInOrder | src/main/java/org/theseed/java/erdb/DbConnection.java:473-482 | The list keeps the driver's order and repeats: it distributes over concatenation, and a single name is kept exactly when it does not start with '_'. |
| Connections.Begin | src/main/java/org/theseed/java/erdb/DbConnection.java:152-156 | A transaction remembers the auto-commit mode and turns auto-commit off. |
| Connections.MarkCommitted | src/main/java/org/theseed/java/erdb/DbConnection.java:161-163 | `commit()` only marks the transaction as successful. |
| Connections.End | src/main/java/org/theseed/java/erdb/DbConnection.java:166-175 | Closing commits if marked and rolls back otherwise, then restores the remembered auto-commit mode. |
| Connections.TransactionOutcome | src/main/java/org/theseed/java/erdb/DbConnection.java:140-177 | A transaction commits exactly when `commit()` was called, rolls back otherwise, and leaves auto-commit as it found it. |
| Connections.ClearTables | src/main/java/org/theseed/java/erdb/DbConnection.java:489-556 | On success every non-meta table is dropped once, and only after every table importing its key is gone. The meta-tables are emptied, the work is committed and the cache is cleared. Otherwise it fails with "circular references", rolls back and keeps the cache, and then no drop order exists at all. Auto-commit is restored either way. |
| Connections.DropOrder | src/main/java/org/theseed/java/erdb/DbConnection.java:519-537 | The drop loop drops only safe tables. It finishes with every table dropped, or stops when no drop order exists. |
| Connections.DropStep | src/main/java/org/theseed/java/erdb/DbConnection.java:519-537 | Dropping one more safe table keeps the drops safe and removes exactly that table from those remaining. |
| Connections.StuckSetBlocks | src/main/java/org/theseed/java/erdb/DbConnection.java:519-537 | A non-empty set of tables, each imported by another member, can never be fully dropped. |
| Connections.KeyFor | src/main/java/org/theseed/java/erdb/DbConnection.java:394-399 | A keyed operation gets the table's single-column key. A missing table is a null dereference, and a table without a key is refused with the operation's name in the message. |
| Connections.BuildDeleteStmt | src/main/java/org/theseed/java/erdb/DbConnection.java:393-402 | Builds `DELETE FROM table WHERE key = ?` with one mark, or fails as `KeyFor` fails. |
| Connections.CheckForRecordStmt | src/main/java/org/theseed/java/erdb/DbConnection.java:320-328 | Builds `SELECT key FROM table WHERE key = ?` with one mark, or fails as `KeyFor` fails. |
| Connections.KeysStmt | src/main/java/org/theseed/java/erdb/DbConnection.java:294-301 | Builds `SELECT key FROM table` without marks, refused like check-for-record. |
| Connections.DeleteStatementMarks | src/main/java/org/theseed/java/erdb/DbConnection.java:393-402 | When the names hold no '?', the delete statement holds exactly as many '?' as it counts marks. |
| Connections.GetRecordStmt | src/main/java/org/theseed/java/erdb/DbConnection.java:710-741 | The `getRecord` query selects every field, qualified by the table and in field order, then tests the key. The record's specs are "table.field" with the fields' types, in the same order. |
| Connections.RecordSpecs | src/main/java/org/theseed/java/erdb/DbConnection.java:719-727 | The specs are "table.field" in field order, each with its field's type. |
| Connections.DeleteRecords | src/main/java/org/theseed/java/erdb/DbConnection.java:650-668 | One delete is prepared, every key is batched in order with a flush every 100 keys and at the end, then the statement is closed. A table without a key fails before anything is sent. |
| Connections.BatchDeletes | src/main/java/org/theseed/java/erdb/DbConnection.java:650-668 | The batching loop produces exactly the reference batching: full batches of 100, then the rest. |
| Connections.DeleteFlushCount | src/main/java/org/theseed/java/erdb/DbConnection.java:650-668 | n keys are executed in ceil(n / 100) batches, and no keys in none. |
| Connections.DeleteBindsEveryKey | src/main/java/org/theseed/java/erdb/DbConnection.java:650-668 | Every key is bound for deletion once, in the order given. |
| Connections.ScriptGroup | src/main/java/org/theseed/java/erdb/DbConnection.java:437-461 | A script statement is one group's trimmed lines joined by single spaces. A group is a run of lines of which only the last ends in ';'. |
| Connections.TrailingFragmentDropped | src/main/java/org/theseed/java/erdb/DbConnection.java:437-461 | Lines after the last line ending in ';' are never submitted. |
| Connections.ScriptStatementCount | src/main/java/org/theseed/java/erdb/DbConnection.java:437-461 | There is one statement per line ending in ';', and each statement ends in ';'. |
| Connections.ScriptStep | src/main/java/org/theseed/java/erdb/DbConnection.java:443-452 | Reading one line either completes a statement or extends the pending text by the trimmed line and a space. |
| Connections.BatchScript | src/main/java/org/theseed/java/erdb/DbConnection.java:437-461 | The loop adds exactly the script's statements to the batch, in order. |
| Connections.ScriptUpdate | src/main/java/org/theseed/java/erdb/DbConnection.java:437-461 | The statements are batched and executed inside a transaction, which commits exactly when the batch succeeds. Auto-commit is restored and the statement is closed. |
| Tables.CustomTypes | src/main/java/org/theseed/java/erdb/DbConnection.java:411-422 | The overrides fail exactly when some row's type name is not a custom type. Otherwise they cover exactly the named fields, all with custom types. |
| Tables.CustomTypeOfLastRow | src/main/java/org/theseed/java/erdb/DbConnection.java:411-422 | The last row naming a field decides its type. |
| Tables.ColumnField | src/main/java/org/theseed/java/erdb/DbTable.java:70-83 | A column becomes a field with its name, its override type or else the engine's reading of its type name, and its nullability. |
| Tables.LinkOf | src/main/java/org/theseed/java/erdb/DbTable.java:192-205 | A one-column foreign key becomes the other table's name and the join condition. Any other key fails the load. |
| Tables.Load | src/main/java/org/theseed/java/erdb/DbTable.java:127-183 | A table with no columns does not exist. Otherwise its fields are exactly the columns. The key is kept only for a single-column primary key. A multi-column foreign key fails the load. |
| Tables.LoadSteps | src/main/java/org/theseed/java/erdb/DbTable.java:127-183 | A successful load read the overrides, the fields and the links, and built its descriptor from them. |
| Tables.MultiFieldLinkFails | src/main/java/org/theseed/java/erdb/DbTable.java:166-175 | Any multi-column imported or exported key fails the load of an existing table. |
| Tables.LoadedField | src/main/java/org/theseed/java/erdb/DbTable.java:142-146 | Each loaded field has its override type if there is one, else the engine's type, and is nullable exactly when the column says so. |
| Tables.LoadedLink | src/main/java/org/theseed/java/erdb/DbTable.java:166-175 | Each foreign key is stored under the other table's name with its join condition. The last key leading to a table wins. |
| Tables.GetType | src/main/java/org/theseed/java/erdb/DbTable.java:219-224 | Gives the field's type, or the "No field" error exactly for a name not in the table. |
| Tables.IsNullable | src/main/java/org/theseed/java/erdb/DbTable.java:231-236 | Gives the field's nullability, or the "No field" error exactly for a name not in the table. |
| Tables.GetField | src/main/java/org/theseed/java/erdb/DbBaseUpdate.java:299-308 | The field descriptor lookup finds a field exactly when the table has one of that name. |
| Tables.GetLink | src/main/java/org/theseed/java/erdb/DbTable.java:250-252 | Gives the join condition exactly when a link to that table exists. |
| Tables.GetFields | src/main/java/org/theseed/java/erdb/DbTable.java:241-243 | Lists every field once, in strictly increasing name order. |
| Tables.FieldOrderCanonical | src/main/java/org/theseed/java/erdb/DbTable.java:241-243 | Tables with the same fields list them in the same order, whatever order the driver reported. |
| Tables.ListedFieldsResolve | src/main/java/org/theseed/java/erdb/DbTable.java:219-243 | Every listed field has a type and a nullability. |
| Records.NewRecord | src/main/java/org/theseed/java/erdb/DbRecord.java:43-54 | A record holds one holder per spec, in the order given. |
| Records.NewRecordMeaning | src/main/java/org/theseed/java/erdb/DbRecord.java:43-54 | Each holder is what a fresh holder of its type decoded from its column. Construction fails exactly when some column cannot be decoded, and then with that column's error. |
| Records.GetField | src/main/java/org/theseed/java/erdb/DbRecord.java:65-70 | A spec is found exactly when the record holds it. Otherwise the lookup fails with the "not present" message. |
| Records.FieldOfSpec | src/main/java/org/theseed/java/erdb/DbRecord.java:43-70 | A spec names the holder of its last occurrence in the select list. |
| Records.IsNull | src/main/java/org/theseed/java/erdb/DbRecord.java:79-82 | Gives the holder's null flag. |
| Records.RecordString | src/main/java/org/theseed/java/erdb/DbRecord.java:91-94 | Gives the holder's string form, or the not-present error. |
| Records.ReportString | src/main/java/org/theseed/java/erdb/DbRecord.java:103-107 | A null string is reported as "". |
| Records.RecordInt | src/main/java/org/theseed/java/erdb/DbRecord.java:116-119 | Gives the holder's integer form, or the not-present error. |
| Records.RecordDouble | src/main/java/org/theseed/java/erdb/DbRecord.java:128-131 | Gives the holder's double form, or the not-present error. |
| Records.RecordDate | src/main/java/org/theseed/java/erdb/DbRecord.java:151-156 | Succeeds exactly on a date holder and gives its instant. Otherwise fails with the "not a date" message. |
| Records.RecordLocation | src/main/java/org/theseed/java/erdb/DbRecord.java:165-170 | Succeeds exactly on a location holder. Otherwise fails with the date message the source uses. |
| Records.RecordDoubleArray | src/main/java/org/theseed/java/erdb/DbRecord.java:179-184 | Succeeds exactly on an array holder. Otherwise fails with the date message the source uses. |
| Records.RecordBool | src/main/java/org/theseed/java/erdb/DbRecord.java:196-202 | True exactly for a non-null field whose integer form is non-zero. A null field is false. |
| Records.RecordRoundTrip | src/main/java/org/theseed/java/erdb/DbRecord.java:43-54 | A row that reads back what a list of holders bound rebuilds those holders, with locations padded and dates through the floating-point trip. |
| Records.BoolOfBoolean | src/main/java/org/theseed/java/erdb/DbRecord.java:196-202 | On a boolean field, `getBool` is its value when it is not null, and false when it is. |
| Records.GetRecord | src/main/java/org/theseed/java/erdb/DbConnection.java:710-741 | Prepares the select, binds the key to slot 1, runs the query and closes the statement. With no row there is no record. Otherwise the record is built from the first row, or the build's failure is returned. |
| Records.GetRecordFields | src/main/java/org/theseed/java/erdb/DbConnection.java:710-741 | In a returned record, every field of the table is reached by its "table.field" spec and holds what its column decoded to. |
| Records.SpecsDistinct | src/main/java/org/theseed/java/erdb/DbConnection.java:719-727 | The specs of `getRecord` are free of repeats. |
| Queries.Init | src/main/java/org/theseed/java/erdb/DbQuery.java:116-135 | A new query has no tables, fields, parameters or statement, and a WHERE list joined by " AND ". |
| Queries.FindTable | src/main/java/org/theseed/java/erdb/DbQuery.java:187-203 | The spec's real table is found through the cache and registered under the full spec. An all-digit spec and a missing table fail with their messages, and a failure registers nothing. |
| Queries.FindTableRegisters | src/main/java/org/theseed/java/erdb/DbQuery.java:187-203 | Every registration stays equal to the cached descriptor of its real table, and earlier registrations are unchanged. |
| Queries.AddTable | src/main/java/org/theseed/java/erdb/DbQuery.java:212-217 | Appends the quoted real table name, then `AS spec` when the spec differs. |
| Queries.JoinStep | src/main/java/org/theseed/java/erdb/DbQuery.java:146-178 | Each later table is registered. A join writes the keyword, the table and the condition from the anchor's link, and fails when there is no link. `&` writes nothing. |
| Queries.WalkJoins | src/main/java/org/theseed/java/erdb/DbQuery.java:146-178 | A walk registers every spec and changes no registration. A successful walk leaves every join it wrote backed by a link. |
| Queries.NewQuery | src/main/java/org/theseed/java/erdb/DbQuery.java:105-109 | A path without tables fails. On success the first spec is registered and every join is backed by a foreign-key link. |
| Queries.SpecTable | src/main/java/org/theseed/java/erdb/DbQuery.java:399-404 | Gives the registered descriptor, or the "not in query" error exactly when the spec is not registered. |
| Queries.SelectField | src/main/java/org/theseed/java/erdb/DbQuery.java:435-445 | The spec ends up selected: it is added with its type when new, and nothing changes when it was already selected. |
| Queries.SelectFieldIdempotent | src/main/java/org/theseed/java/erdb/DbQuery.java:435-445 | Selecting a field twice is selecting it once. |
| Queries.Select | src/main/java/org/theseed/java/erdb/DbQuery.java:381-390 | Succeeds exactly when the table is registered and has every named field, and then all of them are selected. Earlier selections stay. |
| Queries.SelectAll | src/main/java/org/theseed/java/erdb/DbQuery.java:416-424 | Adds exactly the table's fields to the selection, or fails when the spec is not registered. |
| Queries.SelectedAll | src/main/java/org/theseed/java/erdb/DbQuery.java:416-424 | Selecting the listed fields covers every field of the table and nothing else new. |
| Queries.FindField | src/main/java/org/theseed/java/erdb/DbQuery.java:486-493 | A found field is the second dot-separated piece, looked up in the table registered under the first. A spec with fewer pieces indexes past the end. |
| Queries.FindComparable | src/main/java/org/theseed/java/erdb/DbQuery.java:472-477 | Succeeds exactly when the field is found and its type is comparable. Otherwise fails with the "not comparable" message. |
| Queries.AddHolders | src/main/java/org/theseed/java/erdb/DbQuery.java:503-510 | On success there is one fresh holder of the field's type per mark, and none for a count that is not positive. Holders stay non-null. |
| Queries.Rel | src/main/java/org/theseed/java/erdb/DbQuery.java:524-530 | Adds one holder and the filter `spec op ?`, keeping one holder per mark. A failure changes neither. |
| Queries.Between | src/main/java/org/theseed/java/erdb/DbQuery.java:543-550 | Adds two holders and `spec BETWEEN ? AND ?`. |
| Queries.In | src/main/java/org/theseed/java/erdb/DbQuery.java:566-572 | Adds count holders and `spec IN (?, ...)`. A count that is not positive fails after the filter head is written. |
| Queries.IsNull | src/main/java/org/theseed/java/erdb/DbQuery.java:585-595 | Adds `IS NULL` or `IS NOT NULL` on a nullable field, with no holder. A field that is not nullable is refused. |
| Queries.OrderBy | src/main/java/org/theseed/java/erdb/DbQuery.java:456-460 | Appends a comparable sort field, after a comma when there are others. |
| Queries.SetParm | src/main/java/org/theseed/java/erdb/DbQuery.java:638-649 | The room check uses 32-bit arithmetic, then the slots are written in order. Success writes every value. A failure part-way leaves the earlier slots written and names the failing slot. |
| Queries.RoomCheck | src/main/java/org/theseed/java/erdb/DbQuery.java:604-609 | Without wrap-around, the check passes exactly when the slots fit. |
| Queries.Compile | src/main/java/org/theseed/java/erdb/DbQuery.java:324-351 | The statement is the select list, FROM, then WHERE and ORDER BY when not empty. A query with no fields selected has none. |
| Queries.StartQuery | src/main/java/org/theseed/java/erdb/DbQuery.java:324-351 | The statement is prepared on the first run only. Every run binds all the parameters and executes. |
| Queries.CompiledOnce | src/main/java/org/theseed/java/erdb/DbQuery.java:324-351 | Re-running reuses the statement without preparing again, whatever parameters were set in between. |
| Queries.WrittenBinds | src/main/java/org/theseed/java/erdb/DbQuery.java:621-649 | The values a complete `setParm` wrote are bound, non-null, at their slots on the next run. |
| Queries.Close | src/main/java/org/theseed/java/erdb/DbQuery.java:363-368 | The statement is closed exactly when the query has run. |
| Iterators.Open | src/main/java/org/theseed/java/erdb/DbQuery.java:228-234 | The query is run and its rows opened. A failure to run surfaces unchecked. |
| Iterators.Advance | src/main/java/org/theseed/java/erdb/DbQuery.java:279-292 | Consumes one row and buffers its record, or closes the rows at their end. A row that cannot be read fails unchecked. |
| Iterators.HasNext | src/main/java/org/theseed/java/erdb/DbQuery.java:255-260 | Answers true exactly when a record is buffered afterwards. A "no" has closed the rows. |
| Iterators.Next | src/main/java/org/theseed/java/erdb/DbQuery.java:262-274 | Hands out the buffered record, reading ahead first. Past the end it fails. |
| Iterators.CloseIter | src/main/java/org/theseed/java/erdb/DbQuery.java:299-304 | Releases the rows and changes nothing else. |
| Iterators.HasNextIdempotent | src/main/java/org/theseed/java/erdb/DbQuery.java:255-260 | Asking again changes nothing and gives the same answer. |
| Iterators.HasNextThenNext | src/main/java/org/theseed/java/erdb/DbQuery.java:255-274 | Calling `hasNext` before `next` does not change `next`. |
| Iterators.ReadPastEnd | src/main/java/org/theseed/java/erdb/DbQuery.java:262-274 | At the end, `next` fails without change and `hasNext` says no. |
| Iterators.NoMoreAfterFalse | src/main/java/org/theseed/java/erdb/DbQuery.java:255-274 | After `hasNext` says no, `next` fails. |
| Iterators.Drain | src/main/java/org/theseed/java/erdb/DbQuery.java:241-306 | A for-each loop yields the record of every row in order, or fails with the error of the first row that cannot be read. |
| Iterators.RowRecordsFailure | src/main/java/org/theseed/java/erdb/DbQuery.java:279-292 | Reading fails exactly when some row's record cannot be built. |
| Paths.ParsePath | src/main/java/org/theseed/java/erdb/DbQuery.java:146-178 | Fails exactly when no character can start a table name. Otherwise the first spec is a name taken from the path, and every later spec is a name without blanks, '<' or '&'. |
| Paths.PathRoundTrip | src/main/java/org/theseed/java/erdb/DbQuery.java:146-178 | Parsing a written path gives back its specs and delimiters. |
| Paths.RealName | src/main/java/org/theseed/java/erdb/DbQuery.java:187-203 | The real name is the spec without all of its trailing digits. |
| Paths.AliasOf | src/main/java/org/theseed/java/erdb/DbQuery.java:187-203 | A numbered table name is an alias of that table. |
| Paths.NumericSpec | src/main/java/org/theseed/java/erdb/DbQuery.java:187-203 | The real name is empty exactly for an all-digit spec. |
| Updates.Empty | src/main/java/org/theseed/java/erdb/DbBaseUpdate.java:103-116 | Starts with no parameters, no statement and an empty batch. |
| Updates.AddAll | src/main/java/org/theseed/java/erdb/DbBaseUpdate.java:299-308 | Adds one fresh holder per field, in order, after the existing ones. |
| Updates.AddAllLast | src/main/java/org/theseed/java/erdb/DbBaseUpdate.java:299-308 | A name given more than once maps to its newest holder. |
| Updates.Submit | src/main/java/org/theseed/java/erdb/DbBaseUpdate.java:133-145 | Adds one entry and resets the counter exactly when the batch fills. The holders keep their values. |
| Updates.SubmitTrace | src/main/java/org/theseed/java/erdb/DbBaseUpdate.java:133-145 | Binds every holder to its slot, adds the batch entry, and executes the batch when full. |
| Updates.SubmitFlushes | src/main/java/org/theseed/java/erdb/DbBaseUpdate.java:123-145 | A submit executes a batch exactly when it fills one. |
| Updates.SubmitsCounted | src/main/java/org/theseed/java/erdb/DbBaseUpdate.java:133-145 | n submits execute, and leave pending, what the counter alone predicts. |
| Updates.SubmitsFlush | src/main/java/org/theseed/java/erdb/DbBaseUpdate.java:133-145 | Batches executed times size, plus entries pending, accounts for every entry. |
| Updates.CloseBatcher | src/main/java/org/theseed/java/erdb/DbBaseUpdate.java:148-155 | Executes a pending partial batch, then closes the statement if there is one. |
| Updates.AllEntriesExecuted | src/main/java/org/theseed/java/erdb/DbBaseUpdate.java:133-155 | n submits and a close execute ceil(n / size) batches. |
| Updates.Slot | src/main/java/org/theseed/java/erdb/DbBaseUpdate.java:167-175 | Finds the field's holder index, or fails for a missing field or a holder of another type. |
| Updates.Set | src/main/java/org/theseed/java/erdb/DbBaseUpdate.java:289-292 | As written, sets only the field's holder, through the holder's own `set`. |
| Updates.SetCorrected | src/main/java/org/theseed/java/erdb/DbBaseUpdate.java:185-292 | The intended `set` stores the value in only the field's holder and clears its null flag. |
| Updates.SetNullField | src/main/java/org/theseed/java/erdb/DbBaseUpdate.java:276-279 | Any field's holder can be set to null. Other holders are unchanged. |
| Updates.SetThenSubmitAsWritten | src/main/java/org/theseed/java/erdb/DbBaseUpdate.java:185-292 | As written, the next submit binds the value set, except that a null boolean keeps binding NULL. |
| Updates.BooleanNullSticks | src/main/java/org/theseed/java/erdb/DbBaseUpdate.java:276-292 | As written, `setNull` then `set(b)` on a boolean field still binds NULL. |
| Updates.SetThenSubmit | src/main/java/org/theseed/java/erdb/DbBaseUpdate.java:185-292 | With the corrected `set`, the next submit binds the value set at the field's slot. |
| Updates.SetKeepsOthers | src/main/java/org/theseed/java/erdb/DbBaseUpdate.java:185-292 | Setting one field leaves what is bound at every other slot. |
| Updates.NewUpdate | src/main/java/org/theseed/java/erdb/DbBaseUpdate.java:69-116 | Looks the table up. A lookup failure is passed on, and a missing table is a null dereference. A found table always gives an empty update on it. |
| Updates.SingleUpdate | src/main/java/org/theseed/java/erdb/DbUpdate.java:50-54 | Batch size 1. |
| Updates.BatchUpdate | src/main/java/org/theseed/java/erdb/DbUpdate.java:64-68 | Batch size 100. |
| Updates.Change | src/main/java/org/theseed/java/erdb/DbUpdate.java:85-88 | The SET fields become the union with the names given. |
| Updates.Filter | src/main/java/org/theseed/java/erdb/DbUpdate.java:98-101 | The filter fields become the union with the names given. |
| Updates.FieldSetsIgnoreOrder | src/main/java/org/theseed/java/erdb/DbUpdate.java:85-101 | Order and repeats do not matter, and adding present names changes nothing. |
| Updates.PrimaryKey | src/main/java/org/theseed/java/erdb/DbUpdate.java:110-118 | Filters become the key, or are cleared and refused when there is no key. |
| Updates.AddParms | src/main/java/org/theseed/java/erdb/DbUpdate.java:137-160 | A holder per named field. A name the table lacks fails there, keeping the holders added before it. |
| Updates.UpdateStatement | src/main/java/org/theseed/java/erdb/DbUpdate.java:137-160 | `UPDATE t SET f = ?, ...` then ` WHERE g = ? AND ...` when there are filters, with one mark per field. |
| Updates.CreateStatement | src/main/java/org/theseed/java/erdb/DbUpdate.java:137-160 | Adds the SET holders, then the filter holders, and prepares the UPDATE. A missing field fails before anything is prepared. |
| Updates.UpdateLayout | src/main/java/org/theseed/java/erdb/DbUpdate.java:137-160 | One holder per mark: the SET holders first, then the filter holders, each of its field's type. |
| Updates.UpdateSlots | src/main/java/org/theseed/java/erdb/DbUpdate.java:137-160 | Filter names map to filter holders. SET-only names map to SET holders. |
| Updates.UpdateRow | src/main/java/org/theseed/java/erdb/DbUpdate.java:125-130 | Submits once the statement exists, and otherwise fails. |
| Updates.CloseUpdate | src/main/java/org/theseed/java/erdb/DbBaseUpdate.java:148-155 | Flushes a pending partial batch and closes the statement. |
| Updates.NewLoader | src/main/java/org/theseed/java/erdb/DbLoader.java:62-87 | One holder per field, in name order, and the INSERT prepared. A missing table is a null dereference, and a table without fields is refused. A found table with fields always gives a loader. |
| Updates.InsertStatement | src/main/java/org/theseed/java/erdb/DbLoader.java:82-84 | An empty field list is refused. Otherwise gives the INSERT text. |
| Updates.LoaderLayout | src/main/java/org/theseed/java/erdb/DbLoader.java:62-87 | Holder i is fresh, of field i's type, and field i maps to it. The statement has one mark per holder. |
| Updates.LoaderNames | src/main/java/org/theseed/java/erdb/DbLoader.java:62-87 | The loader maps exactly the table's field names. |
| Updates.Insert | src/main/java/org/theseed/java/erdb/DbLoader.java:104-115 | Submits the current values and keeps them. |
| Updates.CloseLoader | src/main/java/org/theseed/java/erdb/DbLoader.java:118-125 | Flushes a pending partial batch, then closes the statement. |
| Strings.Insert | src/main/java/org/theseed/java/erdb/DbUpdate.java:85-88 | Adding a name to a sorted set keeps it sorted and repeat-free, and adds exactly that name. |
| Strings.SortedUnique | src/main/java/org/theseed/java/erdb/DbUpdate.java:85-101 | Its elements determine a sorted, repeat-free list. |

## Left out

- Driver I/O is not modelled. JDBC calls are trace events, and what the driver returns is a parameter: metadata, rows, the was-null signal and batch failures.
- `connect`, `createMetaTable` and the prepared placement and field-type queries are not modelled. `DbConnection.close` and the processor base classes are not modelled either.
- `getMetaData`, the spliterator and stream wrappers of the query, and the checked-for-record boolean results are not modelled. The key-check statements are modelled, but running them is not.
- Floating point is not modelled. Doubles are opaque 64-bit patterns.
- Holders.Create: the null flag follows the newer `DbValue` revision. This revision of `DbValue.java` has no null flag, so "a fresh holder is not null" comes from that revision. The default values are those of the constructors shown.
- Holders.SetValueAsWritten: only the boolean, date and array `set` methods follow the classes shown (`DbBoolean.java:84-86`, `DbDate.java:91-94`, `DbDoubleArray.java:126-129`). This revision of `DbInteger.java`, `DbString.java`, `DbDouble.java` and `DbLocation.java` defines no `set`, though `DbBaseUpdate.java:199-202` and `DbLoader.java:168` call `DbInteger.set`. For those four types the model follows the newer revision: `set` stores the value and clears the null flag.
- Holders.SetValue: for the integer, string, double and location holders it follows the same newer revision as Holders.SetValueAsWritten.
- Holders.GetInt: this revision of `DbInteger.java` defines no `getInt`, so the integer case follows the newer revision. The string, double and location holders give `Unmodelled`: their classes here define no `getInt`, and a double's conversion needs floating point.
- Holders.GetString: the date's string form, `Instant.toString()` at `DbDate.java:77`, is ISO-8601 calendar text and gives `Unmodelled`. The integer, double and location holders also give `Unmodelled`, because their classes here define no `getString`. The string case follows the newer revision.
- Holders.Payload: a date (`DateValue`) keeps whole epoch seconds, and an `Instant`'s nanoseconds are not modelled. Fetched dates are whole seconds (`Instant.ofEpochSecond`), but a date set from an `Instant` with a fraction of a second loses that fraction in the model.
- Holders.GetDouble: only the array holder's refusal is stated. The other conversions to double are `Unmodelled`, because they need floating point.
- Holders.StoreFetchRoundTrip: dates go through `DayTrip`, a parameter standing for the fractional-day conversion. No exact round trip is claimed.
- Records.RecordRoundTrip: dates go through the same `DayTrip` parameter, for the same reason.
- Strings.ToUpper, Strings.ToLower: case mapping covers ASCII letters only. Java's locale-aware mapping of other letters is not modelled.
- Strings.IsDigit: recognises only '0' to '9'. Java's `Character.isDigit` also accepts other Unicode digits.
- Strings.Less: compares by code point, the way `String.compareTo` compares UTF-16 units. The two orders differ above U+FFFF.
- Adapters.MysqlPrimitive, Connections.GetTable, Paths.RealName: these inherit the ASCII-only case mapping and digit test above.
- SqlBuffers.QuoteSpec, SqlBuffers.StartList, SqlBuffers.AppendDelim, SqlBuffers.AppendMark, SqlBuffers.IsEmpty, SqlBuffers.Start: This revision of `SqlBuffer.java` does not define these. Their definitions follow a newer `SqlBuffer` revision, as its callers in `DbQuery.java`, `DbUpdate.java` and `DbConnection.java` use them.
- SqlBuffers.New: its list state (delimiter, list start) follows the same newer revision.
- Holders.Store, Holders.Fetch: This revision of `DbValue.java` declares only abstract `store` and `fetch`, and `DbDouble` has no null flag. The null-aware binding (null check first) and fetching (read, then was-null) follow the newer `DbValue` revision, for every type.
- `DbDate.set(LocalDate)`, `setParm(int, LocalDate...)` and `set(field, LocalDate)` are not modelled, because they need time-zone conversion.
- Queries.SetParm: there is no overload for arrays, as in the source.
- Records.GetRecord, Connections.GetRecordStmt, Connections.DeleteRecords, Connections.BuildDeleteStmt: these take the table descriptor (`desc`) as a parameter instead of calling `getTable`. Connections.GetTable models that call, and its cache effect is not threaded through them.
- Connections.End: always restores auto-commit. In the source (`DbConnection.java:166-175`), a commit or rollback that throws skips that restore. Driver failures of commit and rollback are not modelled.
- Connections.ClearTables: the next table dropped is any safe one. The source takes the first safe one in hash-set order, which the model does not fix.
- Collectors.MapCollectContents, Collectors.MapCollectSplit: "last put wins" holds for a sequential stream. The collectors declare `UNORDERED`, so on a parallel stream which duplicate wins is not fixed, and the model does not claim one.
- Locations.StringToLoc: `Location.create` builds the location from left, strand and left + length - 1. The model keeps left, strand and length, and does not model the `Location` class's normalisation.
- Queries.Env: `DbType.isComparable` and `Link.store` are not part of this model and are parameters.
- The logging calls are not modelled.

## Findings

| source | as written | input that shows it | evidently intended | confidence | as-written member | corrected member |
|---|---|---|---|---|---|---|
| src/main/java/org/theseed/java/erdb/DoubleInputStream.java:52 | `putDouble(0, arrayIdx)` loads the element's index as a double | a stream over [1.0]: the first byte read is 0x00 (index 0.0) | load the element `source[arrayIdx]`, so the stream is the array's blob | high, not executed | Streams.IndexNotValue | Streams.IntendedRoundTrip |
| src/main/java/org/theseed/java/erdb/DoubleInputStream.java:58 | `read` returns the buffer byte as a signed `byte` widened to `int` | an array of 4352 elements: the third byte of element 4351 (pattern 0x40B0_FF00_0000_0000) is 0xFF, read as -1 (end of stream); no shorter array shows it, since no smaller index has a 0xFF byte (argued, not proved) | return the byte as 0..255, as `InputStream.read` promises | high, not executed | Streams.EarlyEndOfStream | Streams.IntendedByteRange |
| src/main/java/org/theseed/java/erdb/types/DbBoolean.java:84-86 | `set(boolean)` stores the value but leaves the null flag | `setNull("f")` then `set("f", true)` on a boolean field: the next submit binds NULL | every typed `set` clears the null flag, as `DbDate` and `DbDoubleArray` do | medium, not executed | Holders.BooleanSetKeepsNull | Holders.SetThenStore |
