# A Dafny model of the IK segmenter core and the common.* utilities

This project models the core of a Java utility repository.

The main part is the IK Analyzer's streaming word segmenter for Chinese and mixed text:

- `AnalyzeContext` is the scan session. It keeps a 4096-char sliding buffer, the char classes per position, the cursor and the count of chars available. It also keeps the stream offset of the buffer, the names of the sub-segmenters holding the buffer, the candidate lexemes, the chosen path per start position and the output queue.
- `KeywordSegmenter.next` drives each pass. It merges runs of letters and digits itself, asks the three sub-segmenters about every other position, arbitrates, outputs and advances the offset.
- `KeywordArbitrator` groups crossing candidates into paths. In smart mode it picks, for each ambiguous path, the least of a family of non-crossing options.
- `Dictionary` holds the main, stop-word and quantifier tries. It is a singleton, supports in-place word adds and disables, rebuilds the main trie once in the background, and loads dictionaries line by line.

Around the segmenter the project models:

- the SQL text helpers of `common.rds`: the name converters and template builders of `AbstractSQLProvider` and `MySQLProvider`, the field, range and order conditions, and the "where" and "in" helpers of `AbstractDao`;
- the partition arithmetic and batch loops of the two database read tasks of `common.concurrent`;
- the hex encoding of `MD5Util`, `FileUtil.parseFilename` and `CommonUtils.isNumeric`;
- the write-back `MapBasedCacheService` and the read-through `TableCache`;
- the DOM serialiser and configuration merge of `LogbackSupport`.

## How the source maps to Dafny

- **Classes:** classes whose fields change are Dafny classes, with methods proved against specification functions (`AnalyzeContext`, `KeywordSegmenter`, `Dictionary`, the caches, the read tasks, `SQLOrder`, `LogbackSupport` with its `StringBuffer`). Value-like code is made of functions and lemmas.
- **Java semantics:** `null` is `Option`, a thrown exception is the `Throws` case of `Result`, and Java's truncating division is written out. Case mapping is ASCII.
- **Collaborators whose source is not part of this model:** `Lexeme`, `LexemePath`, `QuickSortSet`, `DictSegment`, `Hit`, `CharacterUtil` and the three sub-segmenters are given the behaviour of IK Analyzer's own classes, where the modelled code relies on it, and nothing more.
  - The candidate set is a sequence with no two entries over one span, sorted by begin and, at one begin, longer lexeme first. This is the order of IK Analyzer's own `Lexeme.compareTo`.
  - A trie is a map from each word filled into it to whether it is enabled. Disabling a word never filled creates nothing. A prefix hit is a longer filled word, and a miss is neither a match nor a prefix hit.
  - The path order `LexemePath.compareTo` is a parameter, required only to be a strict order.
  - A sub-segmenter is an abstract analyze function over its own state, the buffer, the char classes, the cursor, the count of chars available and the dictionary's main and quantifier tries. A dictionary change reaches the segmentation through those tries.
- **Outside world:** the reader, the database, the clock, the class path and the MD5 digest are parameters.

The model follows the code as written, including behaviours the comments of the code do not announce:

- the single-char output of uncovered CJK positions is commented out, so such positions emit nothing;
- the quantifier trie is never loaded by the constructor;
- the main trie can be rebuilt only once per dictionary;
- `markBufferOffset` adds the cursor, not the cursor plus one, so the char at the cursor is read again at the head of the next buffer.

## Model

| member | source | states |
|---|---|---|
| Numeric.IsNumeric | common.utils/src/main/java/common/utils/CommonUtils.java:21-25 | a null argument throws NullPointerException, and only a null argument does |
| Numeric.IsNumericIffDigits | common.utils/src/main/java/common/utils/CommonUtils.java:21-25 | isNumeric holds exactly when every char is one of '0'..'9' |
| Numeric.IsNumericExamples | common.utils/src/main/java/common/utils/CommonUtils.java:23 | "" and "007" are numeric; "-1", "1.5", " 1" and an Arabic-Indic digit are not |
| FileNames.ParseFilename | common.utils/src/main/java/common/utils/FileUtil.java:110-124 | the filled part of the result buffer is the input with every invalid char deleted, the others kept in order |
| FileNames.StripAppend | common.utils/src/main/java/common/utils/FileUtil.java:115-122 | the chars are handled one at a time: cleaning a concatenation cleans each part |
| FileNames.StripHasNoInvalid | common.utils/src/main/java/common/utils/FileUtil.java:116-121 | no '>' is left in the result |
| FileNames.StripLength | common.utils/src/main/java/common/utils/FileUtil.java:121-123 | the result is shorter than the input by the number of '>' in it |
| FileNames.StripIdentity | common.utils/src/main/java/common/utils/FileUtil.java:110-126 | a name without '>' comes back unchanged |
| FileNames.StripIdempotent | common.utils/src/main/java/common/utils/FileUtil.java:110-126 | cleaning a cleaned name changes nothing |
| Md5Hex.Unsigned | common.utils/src/main/java/common/utils/MD5Util.java:43-46 | a negative byte is shifted by 256, so the value is the byte modulo 256, in 0..255 |
| Md5Hex.HexDigitsTable | common.utils/src/main/java/common/utils/MD5Util.java:53 | entry d of hexDigits is the single lower-case hex digit whose value is d |
| Md5Hex.ByteToHex | common.utils/src/main/java/common/utils/MD5Util.java:41-50 | two lower-case hex digits whose value, high digit times 16 plus low digit, is the unsigned byte |
| Md5Hex.ByteRoundTrip | common.utils/src/main/java/common/utils/MD5Util.java:41-50 | reading the two digits back gives the byte |
| Md5Hex.HexOfLength | common.utils/src/main/java/common/utils/MD5Util.java:31-38 | the encoding of n bytes has 2n chars |
| Md5Hex.HexOfChars | common.utils/src/main/java/common/utils/MD5Util.java:31-38 | every char of the encoding is a lower-case hex digit |
| Md5Hex.FromHexSnoc | common.utils/src/main/java/common/utils/MD5Util.java:34-36 | two more digits decode to one more byte, appended at the end |
| Md5Hex.HexRoundTrip | common.utils/src/main/java/common/utils/MD5Util.java:31-38 | decoding the encoding gives the bytes back |
| Md5Hex.HexOfInjective | common.utils/src/main/java/common/utils/MD5Util.java:31-38 | distinct byte arrays give distinct strings |
| Md5Hex.ByteArrayToHexString | common.utils/src/main/java/common/utils/MD5Util.java:31-38 | the buffer holds the per-byte encodings appended in array order |
| Md5Hex.Md5EncodeShape | common.utils/src/main/java/common/utils/MD5Util.java:14-23 | null in, null out; otherwise two upper-case hex digits per digest byte |
| Md5Hex.Md5EncodeInjective | common.utils/src/main/java/common/utils/MD5Util.java:14-23 | inputs with the same result have the same digest |
| Dao.ToSQLClauseStr | common.rds/src/main/java/common/rds/dao/AbstractDao.java:20-34 | a null or empty list gives ""; otherwise "where " and the non-null, non-empty parts joined with " and "; with no such part the cut at lastIndexOf = -1 throws |
| Dao.KeptStep | common.rds/src/main/java/common/rds/dao/AbstractDao.java:26-31 | one turn of the loop appends the next kept part followed by " and " |
| Dao.ClauseCut | common.rds/src/main/java/common/rds/dao/AbstractDao.java:33 | the last " and " is the trailing one, so cutting there leaves the join; with nothing kept there is none and substring throws |
| Dao.KeptMembers | common.rds/src/main/java/common/rds/dao/AbstractDao.java:26-31 | a kept part is a non-empty part of the list, and every non-empty part is kept |
| Dao.GenerateInClause | common.rds/src/main/java/common/rds/dao/AbstractDao.java:51-62 | "" for num <= 0; otherwise "(" then num markers "?" joined with "," then ")" |
| Dao.InClauseMarks | common.rds/src/main/java/common/rds/dao/AbstractDao.java:56-60 | num - 1 copies of "?," then "?)" is the markers joined with "," inside parentheses |
| Dao.InClauseCounts | common.rds/src/main/java/common/rds/dao/AbstractDao.java:45-62 | the in-list holds exactly num markers and is 2 * num + 1 chars long |
| CacheService.CalculateKey | common.cache/src/main/java/common/cache/AbstractCacheService.java:28-36 | the key is null exactly when the key gene is, otherwise two hex digits per digest byte |
| CacheService.SaveUpdate | common.cache/src/main/java/common/cache/MapBasedCacheService.java:244-255 | CREATE owed gives createCacheable, UPDATE owed gives updateCacheable, anything else no write; the wrapper then owes nothing |
| CacheService.SweepStep | common.cache/src/main/java/common/cache/MapBasedCacheService.java:189-202 | one key of the sweep: an expired entry is removed without a write; an unexpired one owing an operation is saved and settled; others are untouched |
| CacheService.SweptSettles | common.cache/src/main/java/common/cache/MapBasedCacheService.java:184-209 | after a sweep exactly the unexpired entries remain, with their objects, owing nothing |
| CacheService.SweepWritesOwed | common.cache/src/main/java/common/cache/MapBasedCacheService.java:196-201 | the sweep writes exactly the unexpired entries that owed CREATE or UPDATE, each with the matching call |
| CacheService.SweepIdempotent | common.cache/src/main/java/common/cache/MapBasedCacheService.java:184-209 | a second sweep at the same time changes nothing and writes nothing |
| CacheService.LoadedStep | common.cache/src/main/java/common/cache/MapBasedCacheService.java:270-274 | one turn of refresh's loop caches the next object under its key when it is unexpired |
| CacheService.LoadedEntries | common.cache/src/main/java/common/cache/MapBasedCacheService.java:263-281 | every entry refresh caches is an unexpired object of the loaded list, under its own key, owing nothing |
| CacheService.LoadedKeys | common.cache/src/main/java/common/cache/MapBasedCacheService.java:270-274 | every unexpired object of the list with a key is cached |
| CacheService.LoadedSweep | common.cache/src/main/java/common/cache/MapBasedCacheService.java:175-209 | a sweep right after refresh neither drops nor writes anything |
| CacheService.MapCacheService.constructor | common.cache/src/main/java/common/cache/MapBasedCacheService.java:62-68 | an empty cache with the seven-day expiry |
| CacheService.MapCacheService.SetExpireMillisecond | common.cache/src/main/java/common/cache/MapBasedCacheService.java:161-164 | sets the expiry and leaves the cache alone |
| CacheService.MapCacheService.DeleteByKey | common.cache/src/main/java/common/cache/MapBasedCacheService.java:81-86 | the key has no entry afterwards and the other entries stay; the answer is true; a null key throws |
| CacheService.MapCacheService.WriteObject | common.cache/src/main/java/common/cache/MapBasedCacheService.java:228-242 | the object, stamped with the time and its key, is cached under its key owing CREATE and the key is returned; a null key gene throws at the put |
| CacheService.MapCacheService.ReadObject | common.cache/src/main/java/common/cache/MapBasedCacheService.java:122-146 | a hit returns the cached object, restamped and owing UPDATE when asked; a miss loads by key and caches a loaded object owing UPDATE; a null key throws |
| CacheService.MapCacheService.Sweep | common.cache/src/main/java/common/cache/MapBasedCacheService.java:184-209 | the new cache is the swept cache and the writes made are the sweep's writes |
| CacheService.MapCacheService.Refresh | common.cache/src/main/java/common/cache/MapBasedCacheService.java:263-281 | with no unexpired null-key object the cache is exactly the loaded map; otherwise it throws at the first such object with the ones before it cached |
| CacheService.IsCachedAsWrittenMisses | common.cache/src/main/java/common/cache/MapBasedCacheService.java:113-117 | isCached as written is false for a key that has an entry |
| TableCaches.QueryForObject | common.rds/src/main/java/common/rds/cache/TableCache.java:81-82 | one row is returned as it is; no row throws EmptyResultDataAccessException, several throw IncorrectResultSizeDataAccessException |
| TableCaches.SimpleName | common.rds/src/main/java/common/rds/cache/TableCache.java:66-67 | the part of the class name after its last '.', which holds no '.'; a name without '.' is kept whole |
| TableCaches.FirstPrimaryKey | common.rds/src/main/java/common/rds/cache/TableCache.java:104-111 | the name of the first field carrying the primary-key mark, none exactly when no field does |
| TableCaches.KeyedEntries | common.rds/src/main/java/common/rds/cache/TableCache.java:125-131 | every cached row is a row of the table, under its own primary-key value |
| TableCaches.KeyedKeys | common.rds/src/main/java/common/rds/cache/TableCache.java:128-130 | every non-null row is cached under its primary-key value unless a later row has the same value |
| TableCaches.TableCache.constructor | common.rds/src/main/java/common/rds/cache/TableCache.java:63-68 | the table name is the underscored simple class name, with no upper-case letter; no key field and an empty cache |
| TableCaches.TableCache.Get | common.rds/src/main/java/common/rds/cache/TableCache.java:70-91 | a cached row is returned without a query; an uncached null key gives null; otherwise the row is queried, no row gives null, several throw, a non-null row is cached; no key field throws |
| TableCaches.Values | common.rds/src/main/java/common/rds/cache/TableCache.java:93-96 | Map.values(): each value as many times as there are keys holding it |
| TableCaches.TableCache.GetAll | common.rds/src/main/java/common/rds/cache/TableCache.java:93-96 | exactly the cached rows, each as many times as there are keys it is cached under |
| TableCaches.TableCache.Refresh | common.rds/src/main/java/common/rds/cache/TableCache.java:121-138 | unless the lock is held, the cache becomes every row under its primary-key value; a null row, or no key field, throws with the earlier rows cached |
| TableCaches.TableCache.RefreshKey | common.rds/src/main/java/common/rds/cache/TableCache.java:140-150 | the key's row is queried; a non-null row is cached, a null one uncaches the key, a query failure propagates |
| TableCaches.TableCache.Init | common.rds/src/main/java/common/rds/cache/TableCache.java:100-119 | the first primary-key field is taken; with none, nothing is loaded; with the refresh lock held, nothing changes; otherwise the whole table is loaded, or, at the first null row, NullPointerException with the earlier rows cached |
| SqlNames.UnderscoreName | common.rds/src/main/java/common/rds/sql/AbstractSQLProvider.java:85-103 | null and "" give ""; otherwise the first char lower-cased, then each later capital written as '_' and its lower case, other chars kept |
| SqlNames.UnderscoreTailFacts | common.rds/src/main/java/common/rds/sql/AbstractSQLProvider.java:92-101 | after the first char, one '_' is added per capital, no capital is left, and a part without capitals is kept as it is |
| SqlNames.UnderscoreLength | common.rds/src/main/java/common/rds/sql/AbstractSQLProvider.java:90-102 | the result is longer than the name by the number of capitals after the first char |
| SqlNames.UnderscoreHasNoUpper | common.rds/src/main/java/common/rds/sql/AbstractSQLProvider.java:85-103 | the result holds no capital |
| SqlNames.UnderscoreFixesLowerNames | common.rds/src/main/java/common/rds/sql/AbstractSQLProvider.java:85-103 | a name without capitals is returned unchanged |
| SqlNames.UnderscoreIdempotent | common.rds/src/main/java/common/rds/sql/AbstractSQLProvider.java:85-103 | underscoring an underscored name changes nothing |
| SqlNames.DropTrailingEmpty | common.rds/src/main/java/common/rds/sql/AbstractSQLProvider.java:36 | String.split drops trailing empty pieces and nothing else: the result is a prefix of the pieces ending in a non-empty one |
| SqlNames.SplitAllNoSep | common.rds/src/main/java/common/rds/sql/AbstractSQLProvider.java:36 | a name without '_' splits into itself |
| SqlNames.SplitAllAt | common.rds/src/main/java/common/rds/sql/AbstractSQLProvider.java:36 | the text before the first '_' is the first piece, and the rest splits as it would alone |
| SqlNames.CamelCaseName | common.rds/src/main/java/common/rds/sql/AbstractSQLProvider.java:30-52 | null and "" give ""; a split with no piece throws ArrayIndexOutOfBounds, an empty piece throws StringIndexOutOfBounds; otherwise the first piece with its first char cased as asked, then every later piece capitalised, the rest lower-cased |
| SqlNames.CamelCaseOfUnderscoresThrows | common.rds/src/main/java/common/rds/sql/AbstractSQLProvider.java:36-39 | "__" splits into no piece, so nms[0] throws |
| SqlNames.CamelCaseOfLeadingUnderscoreThrows | common.rds/src/main/java/common/rds/sql/AbstractSQLProvider.java:36-39 | "_a" has an empty first piece, so substring(0, 1) throws |
| SqlNames.UnderscoreCut | common.rds/src/main/java/common/rds/sql/AbstractSQLProvider.java:92-101 | underscoring a name whose next capital is at j writes the part before j, then '_' and the underscored rest |
| SqlNames.CapitalizedSegment | common.rds/src/main/java/common/rds/sql/AbstractSQLProvider.java:46-50 | a piece written by underscoreName for a capitalised word is capitalised back to that word |
| SqlNames.CapitalizeUnderscored | common.rds/src/main/java/common/rds/sql/AbstractSQLProvider.java:46-101 | the pieces between '_' of an underscored word that starts with a capital are non-empty and capitalise back to the word |
| SqlNames.CamelCaseOfSegments | common.rds/src/main/java/common/rds/sql/AbstractSQLProvider.java:36-51 | with non-empty pieces, camelCaseName is the cased first piece followed by the capitalised others |
| SqlNames.FirstSegmentOfHead | common.rds/src/main/java/common/rds/sql/AbstractSQLProvider.java:41-44 | the first piece written by underscoreName is written back unchanged when the name starts in lower case |
| SqlNames.RoundTripWithoutCapital | common.rds/src/main/java/common/rds/sql/AbstractSQLProvider.java:30-52 | a lower-case name without capitals or '_' comes back from camelCaseName(underscoreName(s), false) (also lines 85-103 of the same file) |
| SqlNames.CamelCaseJoin | common.rds/src/main/java/common/rds/sql/AbstractSQLProvider.java:36-51 | camelCaseName of a head, '_' and pieces that capitalise to v is the head followed by v |
| SqlNames.RoundTripWithCapital | common.rds/src/main/java/common/rds/sql/AbstractSQLProvider.java:30-52 | a camelCase name without '_' and with a later capital comes back from camelCaseName(underscoreName(s), false) (also lines 85-103 of the same file) |
| SqlNames.CamelUnderscoreRoundTrip | common.rds/src/main/java/common/rds/sql/AbstractSQLProvider.java:30-52 | camelCaseName(underscoreName(s), false) == s for every non-empty name without '_' that starts in lower case (also lines 85-103 of the same file) |
| SqlProvider.UnderscoreKeepsName | common.rds/src/main/java/common/rds/sql/AbstractSQLProvider.java:85-103 | underscoreName maps a Java identifier to an identifier |
| SqlProvider.PrepareFields | common.rds/src/main/java/common/rds/sql/AbstractSQLProvider.java:298-321 | the field map is every non-static, non-excluded field other than the id field, in declaration order, each with its underscored name; the id field is the last such field named idName |
| SqlProvider.MappedFieldsMembers | common.rds/src/main/java/common/rds/sql/AbstractSQLProvider.java:302-320 | the field map holds exactly the persistent fields not named idName, each under its underscored name |
| SqlProvider.MappedFieldsAppend | common.rds/src/main/java/common/rds/sql/AbstractSQLProvider.java:302-320 | the field map keeps declaration order: filtering distributes over concatenation |
| SqlProvider.IdColumnFound | common.rds/src/main/java/common/rds/sql/AbstractSQLProvider.java:313-316 | an id field is found exactly when some persistent field is named idName, and its column is underscoreName(idName) |
| SqlProvider.InsertColumns | common.rds/src/main/java/common/rds/sql/AbstractSQLProvider.java:325-330 | "insert into T({0}" and the columns joined with ","; with no column deleteCharAt(-1) throws |
| SqlProvider.PrepareInsertSQL | common.rds/src/main/java/common/rds/sql/AbstractSQLProvider.java:323-341 | "insert into T({0}c1,..,cn) values ({1}?,..,?)"; an empty field map throws at the first deleteCharAt |
| SqlProvider.PrepareUpdateSQL | common.rds/src/main/java/common/rds/sql/AbstractSQLProvider.java:359-369 | "update T set c1 = ?,..,cn = ? where id = ?"; an empty field map throws at deleteCharAt |
| SqlProvider.PrepareQueryAllSQL | common.rds/src/main/java/common/rds/sql/AbstractSQLProvider.java:343-354 | "select id as idName, c1 as f1, .. from T {0}" with the id first and the field map in order |
| SqlProvider.PrepareClassQueryAllSQL | common.rds/src/main/java/common/rds/sql/AbstractSQLProvider.java:54-75 | "select" and the selected "column as field" items joined with ",", then " from " and the underscored class name; with no item the space after "select" is the char deleted |
| SqlProvider.SelectListTrimmed | common.rds/src/main/java/common/rds/sql/AbstractSQLProvider.java:72 | deleting the last char of the select list drops its trailing ',' or, with no item, the space |
| SqlProvider.SelectedItemsMembers | common.rds/src/main/java/common/rds/sql/AbstractSQLProvider.java:58-70 | the static query selects exactly the non-static fields not excluded with MUST_NOT |
| SqlProvider.NewProvider | common.rds/src/main/java/common/rds/sql/AbstractSQLProvider.java:158-193 | no id field fails Assert.notNull; an empty field map fails in the insert builder; otherwise every template is derived from the table, the id column and the field map |
| SqlProvider.BuiltProviderWellNamed | common.rds/src/main/java/common/rds/sql/AbstractSQLProvider.java:158-193 | identifier names in the class give identifier names for the table and every column |
| SqlProvider.NoOrderText | common.rds/src/main/java/common/rds/sql/AbstractSQLProvider.java:171 | formatting the query-all template with "" leaves the select text and a space |
| SqlProvider.QueryAllWithOrder | common.rds/src/main/java/common/rds/sql/AbstractSQLProvider.java:259-263 | provideQueryAllSQL is the select text, a space and the order clause, or nothing for a null order |
| SqlProvider.QueryByIdText | common.rds/src/main/java/common/rds/sql/AbstractSQLProvider.java:171-173 | queryByIdSQL is the select text, " where ", the id column and " = ?" |
| SqlProvider.ByFieldTemplates | common.rds/src/main/java/common/rds/sql/AbstractSQLProvider.java:176-183 | the by-field templates are the select text, a space and their "where" patterns |
| SqlProvider.QueryByFieldText | common.rds/src/main/java/common/rds/sql/MySQLProvider.java:36-42 | the query by field is "where ", the condition, the order clause and the limit clause, separated by spaces |
| SqlProvider.QueryByFieldRangeText | common.rds/src/main/java/common/rds/sql/MySQLProvider.java:24-31 | the query by field range is "where ", the condition, " and ", the range, the order clause and the limit clause |
| SqlProvider.CountByFieldText | common.rds/src/main/java/common/rds/sql/AbstractSQLProvider.java:179-239 | the count by field is the count-all text, " where " and the condition |
| SqlProvider.CountByFieldRangeText | common.rds/src/main/java/common/rds/sql/AbstractSQLProvider.java:186-230 | the count by field range is the count-all text, " where ", the condition, " and " and the range |
| SqlProvider.InsertPlaceholders | common.rds/src/main/java/common/rds/sql/AbstractSQLProvider.java:323-341 | the insert template holds exactly one "?" per mapped column |
| SqlProvider.UpdatePlaceholders | common.rds/src/main/java/common/rds/sql/AbstractSQLProvider.java:359-369 | the update template holds one "?" per mapped column and one for the id |
| SqlProvider.InsertFilled | common.rds/src/main/java/common/rds/sql/AbstractSQLProvider.java:326-331 | filling the insert template puts its first argument before the columns and its second before the markers |
| SqlConditions.FieldConditionText | common.rds/src/main/java/common/rds/sql/SQLFieldCondition.java:19-34 | the condition reads "name = ?", a null name printing as "null" |
| SqlConditions.FieldConditionOnePlaceholder | common.rds/src/main/java/common/rds/sql/SQLFieldCondition.java:31-34 | the condition holds exactly one "?" when the name holds none |
| SqlConditions.FieldConditionIgnoresValue | common.rds/src/main/java/common/rds/sql/SQLFieldCondition.java:31-34 | the value never reaches the text: same field, same text |
| SqlConditions.BoundText | common.rds/src/main/java/common/rds/sql/SQLFieldRangeCondition.java:29 | a bound reads "f sym ?" |
| SqlConditions.JoinedText | common.rds/src/main/java/common/rds/sql/SQLFieldRangeCondition.java:31 | two bounds are joined with " AND " |
| SqlConditions.RangeConditionText | common.rds/src/main/java/common/rds/sql/SQLFieldRangeCondition.java:49-65 | null exactly when there is no bound; "f >= ?" or "f > ?" for a lower bound, "f <= ?" or "f < ?" for an upper one, both joined by " AND " |
| SqlConditions.RangeConditionIgnoresValues | common.rds/src/main/java/common/rds/sql/SQLFieldRangeCondition.java:49-65 | only whether a bound is present reaches the text, not its value |
| SqlConditions.RangeConditionPlaceholders | common.rds/src/main/java/common/rds/sql/SQLFieldRangeCondition.java:49-65 | one "?" per bound present |
| SqlConditions.OrderClauseText | common.rds/src/main/java/common/rds/sql/SQLOrder.java:37-52 | the clause reads " order by f t", a null type printing as "" |
| SqlConditions.AscendingClauseEndsWithSpace | common.rds/src/main/java/common/rds/sql/SQLOrder.java:35-37 | an ascending clause ends in a space |
| SqlConditions.SqlOrder.constructor | common.rds/src/main/java/common/rds/sql/SQLOrder.java:43-47 | stores the field and the type as given |
| SqlConditions.SqlOrder.SetOrderField | common.rds/src/main/java/common/rds/sql/SQLOrder.java:64-67 | overwrites the field, keeps the type |
| SqlConditions.SqlOrder.SetOrderType | common.rds/src/main/java/common/rds/sql/SQLOrder.java:69-72 | overwrites the type, keeps the field |
| SqlConditions.CreateDescOrder | common.rds/src/main/java/common/rds/sql/SQLOrder.java:10-16 | null exactly for a null or empty field, otherwise a new descending order on it |
| SqlConditions.CreateOrder | common.rds/src/main/java/common/rds/sql/SQLOrder.java:18-24 | null exactly for a null or empty field, otherwise a new ascending order on it |
| SqlConditions.CreateOrderOfType | common.rds/src/main/java/common/rds/sql/SQLOrder.java:26-32 | null exactly for a null or empty field; descending only when the type is exactly "desc" |
| SqlPatterns.FormatByField | common.rds/src/main/java/common/rds/sql/AbstractSQLProvider.java:176 | "where {0} {1} {2}" takes condition, order clause and limit clause, separated by spaces |
| SqlPatterns.FormatByFieldRange | common.rds/src/main/java/common/rds/sql/AbstractSQLProvider.java:183 | "where {0} and {1} {2} {3}" takes condition, range, order clause and limit clause |
| SqlPatterns.FormatWhereOne | common.rds/src/main/java/common/rds/sql/AbstractSQLProvider.java:179 | " where {0}" takes the condition |
| SqlPatterns.FormatWhereTwo | common.rds/src/main/java/common/rds/sql/AbstractSQLProvider.java:186 | " where {0} and {1}" takes the condition and the range |
| ReadTasks.CalculateIdRanges | common.concurrent/src/main/java/common/concurrent/tasks/CommonReadDBAccordingIdRangeTask.java:27-52 | null for minId > maxId or no thread; one thread gets [minId, maxId]; a per-thread width of 10 or less throws IllegalStateException; otherwise the table holds the id ranges |
| ReadTasks.IdPartitionCases | common.concurrent/src/main/java/common/concurrent/tasks/CommonReadDBAccordingIdRangeTask.java:29-43 | exactly when the partition is null, exactly when it throws, and the single range of one thread |
| ReadTasks.IdRangesContiguous | common.concurrent/src/main/java/common/concurrent/tasks/CommonReadDBAccordingIdRangeTask.java:45-50 | the first range starts at minId, the last ends at maxId, and each starts where the previous ends |
| ReadTasks.IdRangesWidths | common.concurrent/src/main/java/common/concurrent/tasks/CommonReadDBAccordingIdRangeTask.java:39-50 | every range but the last is (maxId - minId) / n ids wide, and the last at least as wide |
| ReadTasks.IdRangesCover | common.concurrent/src/main/java/common/concurrent/tasks/CommonReadDBAccordingIdRangeTask.java:27-52 | every id of [minId, maxId) lies in one of the ranges |
| ReadTasks.IdRangesOrdered | common.concurrent/src/main/java/common/concurrent/tasks/CommonReadDBAccordingIdRangeTask.java:45-50 | an earlier range ends no later than a later one starts, so the ranges do not overlap |
| ReadTasks.CalculateSlices | common.concurrent/src/main/java/common/concurrent/tasks/CommonReadDBOnEverageTask.java:27-41 | a negative thread count throws at allocation, zero at the division; otherwise the table holds the slices |
| ReadTasks.SlicesShape | common.concurrent/src/main/java/common/concurrent/tasks/CommonReadDBOnEverageTask.java:30-38 | the slices start at offset 0 and follow each other, and all but the last hold totalCount / n rows |
| ReadTasks.SlicesSum | common.concurrent/src/main/java/common/concurrent/tasks/CommonReadDBOnEverageTask.java:27-41 | the slices hand out exactly totalCount rows between them |
| ReadTasks.PutAllAppend | common.concurrent/src/main/java/common/concurrent/tasks/CommonReadDBAccordingIdRangeTask.java:134-154 | rows reach the queue in fetch order, and the non-null counts add up (the loop of CommonReadDBOnEverageTask.java, lines 100-120, is the same) |
| ReadTasks.Deliver | common.concurrent/src/main/java/common/concurrent/tasks/CommonReadDBAccordingIdRangeTask.java:134-154 | every non-null row goes through the handler onto the queue, in order, and the non-null rows are counted (the loop of CommonReadDBOnEverageTask.java, lines 100-113, is the same) |
| ReadTasks.DeliveredIsPutAll | common.concurrent/src/main/java/common/concurrent/tasks/CommonReadDBAccordingIdRangeTask.java:130-158 | the queue receives the rows of all queries, in query order and then row order, each through the handler (the loop of CommonReadDBOnEverageTask.java, lines 96-128, is the same) |
| ReadTasks.WindowsShape | common.concurrent/src/main/java/common/concurrent/tasks/CommonReadDBAccordingIdRangeTask.java:128-158 | each window starts below maxId and ends at most at maxId, so id maxId is never read; each starts where the previous ended and is at most batchSize wide |
| ReadTasks.WindowsProgress | common.concurrent/src/main/java/common/concurrent/tasks/CommonReadDBAccordingIdRangeTask.java:129-157 | with batchSize > 0 every window is non-empty; with batchSize <= 0 every window is empty |
| ReadTasks.WindowsReachMax | common.concurrent/src/main/java/common/concurrent/tasks/CommonReadDBAccordingIdRangeTask.java:128-158 | with batchSize > 0 and enough rounds the last window ends at maxId, so every id of [minId, maxId) is read |
| ReadTasks.IdRangeReadTask.constructor | common.concurrent/src/main/java/common/concurrent/tasks/CommonReadDBAccordingIdRangeTask.java:103-123 | keeps the bounds, the batch size, the query, the queue and the handler; builds the SQL text and the thread name; the count starts at 0 |
| ReadTasks.NewIdRangeReadTask | common.concurrent/src/main/java/common/concurrent/tasks/CommonReadDBAccordingIdRangeTask.java:117-120 | a null queue or operator, or minId > maxId, throws IllegalArgumentException; otherwise a fresh task |
| ReadTasks.IdRangeReadTask.RunInternal | common.concurrent/src/main/java/common/concurrent/tasks/CommonReadDBAccordingIdRangeTask.java:125-161 | the queue gains the rows of the windows in order, the count gains their non-null rows, and the result reports the count |
| ReadTasks.OffsetStops | common.concurrent/src/main/java/common/concurrent/tasks/CommonReadDBOnEverageTask.java:121-126 | the loop stops after a query that reaches readCount or returns nothing |
| ReadTasks.OffsetContinues | common.concurrent/src/main/java/common/concurrent/tasks/CommonReadDBOnEverageTask.java:121-127 | otherwise the next query starts past the rows returned and asks for what is left, at most batchSize rows |
| ReadTasks.OffsetRequestSteps | common.concurrent/src/main/java/common/concurrent/tasks/CommonReadDBOnEverageTask.java:94-122 | query k starts at limitStart plus the rows read before it and asks for what is left, at most batchSize rows |
| ReadTasks.OffsetRequestsContinue | common.concurrent/src/main/java/common/concurrent/tasks/CommonReadDBOnEverageTask.java:124-126 | every query but the last leaves the count below readCount and returns at least one row |
| ReadTasks.OffsetRound | common.concurrent/src/main/java/common/concurrent/tasks/CommonReadDBOnEverageTask.java:96-126 | one round (query, hand the rows over, count them, move the offset, size the next query) keeps the queue and the count on course for the rows the remaining queries return, and uses up at least one round |
| ReadTasks.OffsetLoop | common.concurrent/src/main/java/common/concurrent/tasks/CommonReadDBOnEverageTask.java:94-128 | the queue gains the rows of the offset queries in order, and the count gains every row returned, null ones included |
| ReadTasks.AverageReadTask.constructor | common.concurrent/src/main/java/common/concurrent/tasks/CommonReadDBOnEverageTask.java:75-89 | keeps the query, the SQL, the counts and the queue; builds the thread name; the count starts at 0 |
| ReadTasks.AverageReadTask.RunInternal | common.concurrent/src/main/java/common/concurrent/tasks/CommonReadDBOnEverageTask.java:91-130 | the queue and the count are those of the offset loop, and the result reports the count |
| IkArbitrator.Back | common.ik/src/main/java/org/wltea/analyzer/core/KeywordArbitrator.java:30-36 | backPath leaves a prefix of the option, and one that no longer crosses the lexeme |
| IkArbitrator.BackLongest | common.ik/src/main/java/org/wltea/analyzer/core/KeywordArbitrator.java:30-36 | it removes only as many tail lexemes as needed: every longer prefix still crosses |
| IkArbitrator.BackPath | common.ik/src/main/java/org/wltea/analyzer/core/KeywordArbitrator.java:30-36 | the loop on the option object leaves the option Back describes |
| IkArbitrator.Forward | common.ik/src/main/java/org/wltea/analyzer/core/KeywordArbitrator.java:45-59 | the option stays non-crossing, and the conflict stack only gains cells from j on, above what it held |
| IkArbitrator.ForwardGrows | common.ik/src/main/java/org/wltea/analyzer/core/KeywordArbitrator.java:45-59 | forwardPath keeps every lexeme the option held |
| IkArbitrator.ForwardFrom | common.ik/src/main/java/org/wltea/analyzer/core/KeywordArbitrator.java:45-59 | forwardPath adds only lexemes of the cells from j on |
| IkArbitrator.ForwardCovers | common.ik/src/main/java/org/wltea/analyzer/core/KeywordArbitrator.java:45-59 | every cell from j on is taken into the option or pushed as a conflict |
| IkArbitrator.ForwardTakes | common.ik/src/main/java/org/wltea/analyzer/core/KeywordArbitrator.java:51-55 | a cell the option does not cross is taken |
| IkArbitrator.ForwardPath | common.ik/src/main/java/org/wltea/analyzer/core/KeywordArbitrator.java:45-59 | the loop over the cells gives the option and conflict stack Forward describes |
| IkArbitrator.Rounds | common.ik/src/main/java/org/wltea/analyzer/core/KeywordArbitrator.java:86-94 | the options after the first keep the ones already added, one more per conflict popped |
| IkArbitrator.Options | common.ik/src/main/java/org/wltea/analyzer/core/KeywordArbitrator.java:77-94 | judge always has at least one option |
| IkArbitrator.RoundsFromCells | common.ik/src/main/java/org/wltea/analyzer/core/KeywordArbitrator.java:86-94 | every option judge adds is a non-crossing path of the crossing path's own lexemes |
| IkArbitrator.First | common.ik/src/main/java/org/wltea/analyzer/core/KeywordArbitrator.java:97 | TreeSet.first picks one of the options |
| IkArbitrator.FirstIsLeast | common.ik/src/main/java/org/wltea/analyzer/core/KeywordArbitrator.java:97 | under a strict order no option is less than the one picked |
| IkArbitrator.Judge | common.ik/src/main/java/org/wltea/analyzer/core/KeywordArbitrator.java:72-99 | judge returns TreeSet.first of the first greedy path and one path per conflict of the first pass; later conflicts are dropped and fullTextLength is unused |
| IkArbitrator.JudgeMeaning | common.ik/src/main/java/org/wltea/analyzer/core/KeywordArbitrator.java:72-99 | judge's result is one of its options, none of which is less, and a non-crossing path of the crossing path's lexemes |
| IkArbitrator.Groups | common.ik/src/main/java/org/wltea/analyzer/core/KeywordArbitrator.java:112-149 | the crossing paths keep the ones closed before and add at least the last one |
| IkArbitrator.GroupsFlatten | common.ik/src/main/java/org/wltea/analyzer/core/KeywordArbitrator.java:116-149 | the crossing paths cut the candidates into consecutive runs: nothing lost, added or reordered |
| IkArbitrator.NotCrossAfter | common.ik/src/main/java/org/wltea/analyzer/core/KeywordArbitrator.java:121-143 | a candidate that does not cross the current path, and does not start before it, starts at or after its end |
| IkArbitrator.GroupsChain | common.ik/src/main/java/org/wltea/analyzer/core/KeywordArbitrator.java:116-149 | each closed crossing path ends by the begin of the next |
| IkArbitrator.GroupsNonEmpty | common.ik/src/main/java/org/wltea/analyzer/core/KeywordArbitrator.java:112-149 | the crossing paths are never empty unless there were no candidates |
| IkArbitrator.GroupsFromCandidates | common.ik/src/main/java/org/wltea/analyzer/core/KeywordArbitrator.java:112-149 | every crossing path is a sorted run of candidates inside the buffer |
| IkArbitrator.CrossPaths | common.ik/src/main/java/org/wltea/analyzer/core/KeywordArbitrator.java:112-171 | every crossing path process closes is well formed |
| IkArbitrator.EmitFromGroup | common.ik/src/main/java/org/wltea/analyzer/core/KeywordArbitrator.java:123-170 | what is recorded for a crossing path is a sorted path of its own lexemes, non-empty when the crossing path is |
| IkArbitrator.EmitWithin | common.ik/src/main/java/org/wltea/analyzer/core/KeywordArbitrator.java:123-170 | the recorded path lies within the crossing path's span |
| IkArbitrator.PutAllSeparated | common.ik/src/main/java/org/wltea/analyzer/core/KeywordArbitrator.java:116-171 | recording chained crossing paths gives paths that do not reach each other's start |
| IkArbitrator.EmptyRecordsNothing | common.ik/src/main/java/org/wltea/analyzer/core/KeywordArbitrator.java:113-155 | with no candidates process records only the empty path |
| IkArbitrator.ProcessSeparates | common.ik/src/main/java/org/wltea/analyzer/core/KeywordArbitrator.java:110-171 | from an empty path map, every lexeme of a recorded path ends by the begin of every later path |
| IkArbitrator.PutAllFrom | common.ik/src/main/java/org/wltea/analyzer/core/KeywordArbitrator.java:127-165 | what is recorded is made of the crossing paths' lexemes |
| IkArbitrator.RecordedFromCandidates | common.ik/src/main/java/org/wltea/analyzer/core/KeywordArbitrator.java:110-171 | process records only candidates it drained |
| IkArbitrator.RecordCrossPath | common.ik/src/main/java/org/wltea/analyzer/core/KeywordArbitrator.java:123-139 | the path itself when it holds one lexeme or outside smart mode, else judge's choice, is stored under its begin; nothing else in the context changes |
| IkArbitrator.CrossStep | common.ik/src/main/java/org/wltea/analyzer/core/KeywordArbitrator.java:121-143 | a candidate extends the current crossing path, or closes it and starts the next |
| IkArbitrator.Process | common.ik/src/main/java/org/wltea/analyzer/core/KeywordArbitrator.java:110-171 | the candidates are drained, the path map gains the recorded path of every crossing path, and nothing else in the context changes |
| IkLexeme.Insert | common.ik/src/main/java/org/wltea/analyzer/core/AnalyzeContext.java:141-144 | the candidate set stays in set order (by begin, longer first at one begin) and gains nothing but the added lexeme |
| IkLexeme.InsertContents | common.ik/src/main/java/org/wltea/analyzer/core/AnalyzeContext.java:141-144 | adding a lexeme whose span is already present leaves the set unchanged; otherwise the set gains exactly that lexeme |
| IkLexeme.InsertHasSpan | common.ik/src/main/java/org/wltea/analyzer/core/AnalyzeContext.java:141-144 | after the add, the lexeme's span is in the set |
| IkLexeme.PollFirst | common.ik/src/main/java/org/wltea/analyzer/core/KeywordArbitrator.java:113 | the least candidate and the others, or null when the set is empty |
| IkLexeme.CrossIsOverlap | common.ik/src/main/java/org/wltea/analyzer/core/KeywordArbitrator.java:32 | for lexemes of positive length, the cross test is exactly overlap of the lexeme's span and the path's span |
| IkLexeme.AddNotCrossDisjoint | common.ik/src/main/java/org/wltea/analyzer/core/KeywordArbitrator.java:52 | a lexeme the non-crossing path accepts overlaps none of its lexemes, so the path stays non-crossing |
| IkLexeme.RemoveTailDisjoint | common.ik/src/main/java/org/wltea/analyzer/core/KeywordArbitrator.java:33 | dropping the tail of a non-crossing path leaves it non-crossing and one lexeme shorter |
| IkContext.ReadCount | common.ik/src/main/java/org/wltea/analyzer/core/AnalyzeContext.java:170-180 | a read of length 0 gives 0, a read at the end of the input gives -1, any other read gives between 1 and the requested count, stopping early only at the end of the input |
| IkContext.Reader.Read | common.ik/src/main/java/org/wltea/analyzer/core/AnalyzeContext.java:170-180 | the chars read land in the buffer from the offset and leave the input; nothing changes on 0 or -1 |
| IkContext.PathAdvances | common.ik/src/main/java/org/wltea/analyzer/core/AnalyzeContext.java:151-156 | a path stored under a start position is non-empty and ends after that position |
| IkContext.CompoundMeaning | common.ik/src/main/java/org/wltea/analyzer/core/AnalyzeContext.java:77-117 | outside smart mode nothing merges; in smart mode at most two queued lexemes are absorbed, each adjacent to the growing lexeme, and only Arabic+Chinese numeral (to CNUM), Arabic+count word (to CQUAN) and Chinese numeral+count word (to CQUAN) merge |
| IkContext.CompoundArabicMeaning | common.ik/src/main/java/org/wltea/analyzer/core/AnalyzeContext.java:83-100 | the first round absorbs at most the head of the queue, and only a Chinese numeral or count word next to an Arabic numeral |
| IkContext.CompoundCNumMeaning | common.ik/src/main/java/org/wltea/analyzer/core/AnalyzeContext.java:103-114 | the second round absorbs at most a count word next to a Chinese numeral |
| IkContext.CompoundInBuffer | common.ik/src/main/java/org/wltea/analyzer/core/AnalyzeContext.java:77-117 | a compounded lexeme still lies inside the buffer at the same stream offset, and the queue it leaves is no longer and keeps that offset |
| IkContext.OutputFromPaths | common.ik/src/main/java/org/wltea/analyzer/core/AnalyzeContext.java:333-368 | every lexeme output comes from a path starting between the walk's start and the cursor |
| IkContext.OutputFromPathsAll | common.ik/src/main/java/org/wltea/analyzer/core/AnalyzeContext.java:333-368 | the same, for all output lexemes at once |
| IkContext.KeysFromEmpty | common.ik/src/main/java/org/wltea/analyzer/core/AnalyzeContext.java:336-343 | positions with no path contribute no start positions |
| IkContext.OutputAllPaths | common.ik/src/main/java/org/wltea/analyzer/core/AnalyzeContext.java:333-368 | when the paths do not overlap and none starts at a USELESS char, the output is every path starting from the walk's start to the cursor, in start order |
| IkContext.NextLexeme | common.ik/src/main/java/org/wltea/analyzer/core/AnalyzeContext.java:219-237 | the queue that remains still fits the buffer and shares one stream offset, and every call on a non-empty queue shortens it |
| IkContext.NextLexemeUnfold | common.ik/src/main/java/org/wltea/analyzer/core/AnalyzeContext.java:222-234 | one turn of the loop: the compounded head is dropped when it is a stop word and returned otherwise |
| IkContext.NextLexemeMeaning | common.ik/src/main/java/org/wltea/analyzer/core/AnalyzeContext.java:219-237 | null only when the queue is empty; otherwise a lexeme that is not a stop word, inside the buffer, whose text is its own span of the buffer |
| IkContext.AnalyzeContext.constructor | common.ik/src/main/java/org/wltea/analyzer/core/AnalyzeContext.java:63-72 | the configuration is kept; the buffers are fresh; the offsets, cursor and count are 0; the holders, candidates, paths and queue are empty |
| IkContext.AnalyzeContext.CompoundHead | common.ik/src/main/java/org/wltea/analyzer/core/AnalyzeContext.java:77-117 | the head and the queue become what compounding gives; nothing else changes |
| IkContext.AnalyzeContext.AddLexeme | common.ik/src/main/java/org/wltea/analyzer/core/AnalyzeContext.java:141-144 | the candidate set gains the lexeme as the set insert says; nothing else changes |
| IkContext.AnalyzeContext.AddLexemePath | common.ik/src/main/java/org/wltea/analyzer/core/AnalyzeContext.java:151-156 | a null path changes nothing; otherwise the path is stored under its begin, replacing any path there |
| IkContext.AnalyzeContext.FillBuffer | common.ik/src/main/java/org/wltea/analyzer/core/AnalyzeContext.java:165-187 | the first fill reads the input into the buffer; a later fill first moves the unprocessed tail to the buffer's head and then reads the rest; the count includes the reader's -1 at the end of the input; the cursor goes back to 0 and the input loses exactly what was read |
| IkContext.AnalyzeContext.InitCursor | common.ik/src/main/java/org/wltea/analyzer/core/AnalyzeContext.java:257-262 | the cursor is 0 and only the first char is normalised and classified |
| IkContext.AnalyzeContext.LockBuffer | common.ik/src/main/java/org/wltea/analyzer/core/AnalyzeContext.java:289-292 | the name joins the holders and the buffer is locked |
| IkContext.AnalyzeContext.UnlockBuffer | common.ik/src/main/java/org/wltea/analyzer/core/AnalyzeContext.java:391-394 | the name leaves the holders; the buffer is still locked exactly when another name holds it (also lines 279-282 of the same file) |
| IkContext.AnalyzeContext.MarkBufferOffset | common.ik/src/main/java/org/wltea/analyzer/core/AnalyzeContext.java:297-300 | the stream offset advances by the cursor; nothing else changes |
| IkContext.AnalyzeContext.MoveCursor | common.ik/src/main/java/org/wltea/analyzer/core/AnalyzeContext.java:305-316 | the cursor moves exactly when it is before the last available char, and then only the new position is normalised and classified; otherwise nothing changes |
| IkContext.AnalyzeContext.RefillTail | common.ik/src/main/java/org/wltea/analyzer/core/AnalyzeContext.java:324-328 | when a refill is needed, the buffer is full, unlocked, and the tail kept by the next fill is 2 to 99 chars |
| IkContext.AnalyzeContext.OutputToResult | common.ik/src/main/java/org/wltea/analyzer/core/AnalyzeContext.java:333-368 | the queue gains the lexemes that the walk from 0 to the cursor outputs, and the path map is cleared |
| IkContext.AnalyzeContext.CompoundAndCheck | common.ik/src/main/java/org/wltea/analyzer/core/AnalyzeContext.java:225-226 | the head is compounded as compounding says, and the flag says whether its buffer text is an enabled stop word |
| IkContext.AnalyzeContext.GetNextLexeme | common.ik/src/main/java/org/wltea/analyzer/core/AnalyzeContext.java:219-237 | the result and the queue left are those the queue function gives: stop words are dropped, the first other lexeme is returned with its text, and null when the queue runs out |
| IkContext.AnalyzeContext.Reset | common.ik/src/main/java/org/wltea/analyzer/core/AnalyzeContext.java:373-384 | fresh buffers and every field back to its start value |
| IkDictionary.MatchWord | common.ik/src/main/java/org/wltea/analyzer/dic/Dictionary.java:169-222 | a match exactly when the word is an enabled entry; a prefix hit exactly when a longer filled word, enabled or not, starts with it; a miss exactly when it is neither; the hit keeps its span |
| IkDictionary.FillSegmentMeaning | common.ik/src/main/java/org/wltea/analyzer/dic/Dictionary.java:132-146 | filling enables exactly the word given besides the words enabled before, and adds its node |
| IkDictionary.DisableSegmentMeaning | common.ik/src/main/java/org/wltea/analyzer/dic/Dictionary.java:149-163 | disabling turns off exactly the word given and keeps the filled words as they were |
| IkDictionary.DisabledWordHit | common.ik/src/main/java/org/wltea/analyzer/dic/Dictionary.java:149-163 | a disabled word no longer matches, stays a prefix hit exactly when it was one, and is a miss exactly when it was not a prefix hit |
| IkDictionary.MatchWithHitExtends | common.ik/src/main/java/org/wltea/analyzer/dic/Dictionary.java:219-222 | continuing a hit by the next char ends where one match over the longer span does |
| IkDictionary.HitFlagsConsistent | common.ik/src/main/java/org/wltea/analyzer/dic/Dictionary.java:169-222 | a hit is a miss exactly when it is neither a match nor a prefix hit |
| IkDictionary.KeyNotEmpty | common.ik/src/main/java/org/wltea/analyzer/dic/Dictionary.java:347-348 | a non-blank line, trimmed and lower-cased, is not empty |
| IkDictionary.LineWords | common.ik/src/main/java/org/wltea/analyzer/dic/Dictionary.java:343-350 | the stored forms of a file's non-blank lines are never empty |
| IkDictionary.FillLinesAllEnabled | common.ik/src/main/java/org/wltea/analyzer/dic/Dictionary.java:343-350 | loading lines only ever enables words |
| IkDictionary.FillLinesWords | common.ik/src/main/java/org/wltea/analyzer/dic/Dictionary.java:343-350 | after loading a file, a word is enabled exactly when a non-blank line gives it or it was enabled before |
| IkDictionary.LoadFilesWords | common.ik/src/main/java/org/wltea/analyzer/dic/Dictionary.java:282-325 | after loading a list of files, a word is enabled exactly when a listed file that exists gives it or it was enabled before (also lines 417-460 of the same file) |
| IkDictionary.MissingFileSkipped | common.ik/src/main/java/org/wltea/analyzer/dic/Dictionary.java:292-295 | a file that does not exist adds nothing |
| IkDictionary.AllTrimmableIsBlank | common.ik/src/main/java/org/wltea/analyzer/dic/Dictionary.java:137-138 | a word whose chars trim removes entirely is exactly one whose trimmed, lower-cased char array is empty |
| IkDictionary.FirstBlank | common.ik/src/main/java/org/wltea/analyzer/dic/Dictionary.java:132-163 | the index of the first non-null element whose trimmed form is empty, or the length when there is none: the loop of addWords and disableWords throws there |
| IkDictionary.AddAllEnables | common.ik/src/main/java/org/wltea/analyzer/dic/Dictionary.java:132-146 | after addWords over elements none of which is blank, each non-null element's stored form is an enabled word of the main trie |
| IkDictionary.DisableAllDisables | common.ik/src/main/java/org/wltea/analyzer/dic/Dictionary.java:149-163 | after disableWords over elements none of which is blank, no non-null element's stored form matches in the main trie |
| IkDictionary.DisableAllKeepsWords | common.ik/src/main/java/org/wltea/analyzer/dic/Dictionary.java:149-163 | disableWords adds no word, so the filled words and the prefix hits stay as they were |
| IkDictionary.Configuration.constructor | common.ik/src/main/java/org/wltea/analyzer/dic/Dictionary.java:115 | the smart switch and the dictionary names are those given |
| IkDictionary.Configuration.SetUseSmart | common.ik/src/main/java/org/wltea/analyzer/dic/Dictionary.java:115 | the smart switch takes the given value |
| IkDictionary.Dictionary.constructor | common.ik/src/main/java/org/wltea/analyzer/dic/Dictionary.java:117-124 | the main and quantifier tries are empty, nothing is loaded or submitted, and the stop-word trie holds the words of the extension stop-word files that exist |
| IkDictionary.Dictionary.AddWords | common.ik/src/main/java/org/wltea/analyzer/dic/Dictionary.java:132-146 | a null collection changes nothing; otherwise each non-null word, trimmed and lower-cased, is filled into the main trie in order up to the first blank word, where ArrayIndexOutOfBoundsException is thrown; the other tries and the refresh state are unchanged |
| IkDictionary.Dictionary.DisableWords | common.ik/src/main/java/org/wltea/analyzer/dic/Dictionary.java:149-163 | a null collection changes nothing; otherwise each non-null word, trimmed and lower-cased, is disabled in the main trie in order up to the first blank word, where ArrayIndexOutOfBoundsException is thrown; the other tries and the refresh state are unchanged |
| IkDictionary.Dictionary.RefreshDictSegment | common.ik/src/main/java/org/wltea/analyzer/dic/Dictionary.java:225-277 | once loaded nothing changes; otherwise the rebuild task is submitted exactly once over all calls; with needBlock the call returns with the rebuild done, loaded set and the trie it built installed when that is not null; without it the rebuild is left running |
| IkDictionary.Dictionary.CompleteTask | common.ik/src/main/java/org/wltea/analyzer/dic/Dictionary.java:240-256 | loaded is set whatever the outcome, a non-null trie replaces the main trie, and a null trie or a failure keeps the old one |
| IkDictionary.Dictionary.ReadWords | common.ik/src/main/java/org/wltea/analyzer/dic/Dictionary.java:343-350 | the loop over a file's lines fills exactly the trie the line function gives |
| IkDictionary.Dictionary.ReadFiles | common.ik/src/main/java/org/wltea/analyzer/dic/Dictionary.java:288-324 | the loop over the listed files fills exactly the trie the file function gives, skipping missing files |
| IkDictionary.Dictionary.LoadExtDict | common.ik/src/main/java/org/wltea/analyzer/dic/Dictionary.java:282-325 | the extension files that exist are loaded into the main trie; nothing else changes |
| IkDictionary.Dictionary.LoadMainDict | common.ik/src/main/java/org/wltea/analyzer/dic/Dictionary.java:332-370 | a missing main file leaves an empty main trie and throws RuntimeException; otherwise the main trie holds the main file's words and then the extensions' |
| IkDictionary.Dictionary.LoadQuantifierDict | common.ik/src/main/java/org/wltea/analyzer/dic/Dictionary.java:376-410 | a missing quantifier file leaves an empty quantifier trie and throws RuntimeException; otherwise the trie holds that file's words |
| IkDictionary.Dictionary.LoadStopWordDict | common.ik/src/main/java/org/wltea/analyzer/dic/Dictionary.java:417-460 | the stop-word trie is rebuilt from the extension stop-word files that exist; nothing else changes |
| IkDictionary.DictionaryHolder.constructor | common.ik/src/main/java/org/wltea/analyzer/dic/Dictionary.java:90 | no dictionary exists yet |
| IkDictionary.DictionaryHolder.Initial | common.ik/src/main/java/org/wltea/analyzer/dic/Dictionary.java:58-69 | the first call creates the dictionary from its configuration, with nothing loaded; every later call returns that same dictionary and ignores its configuration |
| IkDictionary.DictionaryHolder.GetSingleton | common.ik/src/main/java/org/wltea/analyzer/dic/Dictionary.java:45-51 | IllegalStateException exactly before initial, otherwise the dictionary initial created |
| IkSegmenter.LoadSegmenters | common.ik/src/main/java/org/wltea/analyzer/core/KeywordSegmenter.java:192-202 | the letter, quantifier and CJK sub-segmenters, in that order, each with a fresh state |
| IkSegmenter.FoundLexeme | common.ik/src/main/java/org/wltea/analyzer/core/KeywordSegmenter.java:124-126 | a lexeme a sub-segmenter reports lies inside the buffer |
| IkSegmenter.InsertFound | common.ik/src/main/java/org/wltea/analyzer/core/KeywordSegmenter.java:124-126 | the candidate set stays in set order as each reported lexeme is added |
| IkSegmenter.RunsKeptFrom | common.ik/src/main/java/org/wltea/analyzer/core/KeywordSegmenter.java:117-137 | the letter runs' spans stay among the candidates while later adds keep every entry |
| IkSegmenter.Pending | common.ik/src/main/java/org/wltea/analyzer/core/KeywordSegmenter.java:107-113 | the start of the open run of letters and digits is -1 exactly when the visited classes end with another class; otherwise the run from it to the end is all letters and digits and maximal on the left |
| IkSegmenter.CloseRun | common.ik/src/main/java/org/wltea/analyzer/core/KeywordSegmenter.java:135-141 | the run flushed after the loop is exactly the maximal run of letters and digits reaching the last visited position |
| IkSegmenter.VisitRuns | common.ik/src/main/java/org/wltea/analyzer/core/KeywordSegmenter.java:100-132 | the loop adds a TYPE_LETTER lexeme exactly for each maximal run of letters and digits that a later visited position closes |
| IkSegmenter.VisitAnalyzes | common.ik/src/main/java/org/wltea/analyzer/core/KeywordSegmenter.java:100-132 | each sub-segmenter analyzes exactly the visited positions that are not letters or digits |
| IkSegmenter.VisitResets | common.ik/src/main/java/org/wltea/analyzer/core/KeywordSegmenter.java:102-106 | the sub-segmenters are reset exactly at the visited letters and digits |
| IkSegmenter.PassMeaning | common.ik/src/main/java/org/wltea/analyzer/core/KeywordSegmenter.java:97-146 | one pass adds one TYPE_LETTER lexeme per maximal run of letters and digits, asks the sub-segmenters about every other position, resets them at every letter or digit, and ends with a reset |
| IkSegmenter.NextLogAppend | common.ik/src/main/java/org/wltea/analyzer/core/KeywordSegmenter.java:80-156 | rounds of next() followed by more rounds are rounds of next() |
| IkSegmenter.FillShrinks | common.ik/src/main/java/org/wltea/analyzer/core/KeywordSegmenter.java:89-147 | a fill that read something leaves less input to segment than before, so the loop of next() ends |
| IkSegmenter.LogExtend | common.ik/src/main/java/org/wltea/analyzer/core/KeywordSegmenter.java:80-156 | a log of rounds extended by further rounds is still a log of rounds from its start |
| IkSegmenter.KeywordSegmenter.constructor | common.ik/src/main/java/org/wltea/analyzer/core/KeywordSegmenter.java:50-57 | the default configuration set to the given smart mode, the dictionary initialised, a fresh empty context and the three sub-segmenters in order (also lines 175-185 of the same file) |
| IkSegmenter.KeywordSegmenter.WithConfig | common.ik/src/main/java/org/wltea/analyzer/core/KeywordSegmenter.java:66-72 | the given configuration, removeAllCoverTerms forced on, and otherwise as the other constructor (also lines 175-185 of the same file) |
| IkSegmenter.KeywordSegmenter.ResetSegmenters | common.ik/src/main/java/org/wltea/analyzer/core/KeywordSegmenter.java:144-169 | each sub-segmenter's state is cleared, kinds and order kept |
| IkSegmenter.KeywordSegmenter.Reset | common.ik/src/main/java/org/wltea/analyzer/core/KeywordSegmenter.java:163-170 | the new reader, a context with fresh buffers and empty state, and the sub-segmenters reset |
| IkSegmenter.KeywordSegmenter.AddFound | common.ik/src/main/java/org/wltea/analyzer/core/KeywordSegmenter.java:124-126 | the lexemes a sub-segmenter reports join the candidates at the pass's stream offset; nothing else in the context changes |
| IkSegmenter.KeywordSegmenter.AnalyzeOne | common.ik/src/main/java/org/wltea/analyzer/core/KeywordSegmenter.java:125 | the analysis of the sub-segmenter over the buffer, char classes, cursor, chars available and the dictionary's main and quantifier tries decides it: its lexemes join the candidates, it holds or frees the buffer under its own name, and its state moves on |
| IkSegmenter.KeywordSegmenter.AnalyzeAll | common.ik/src/main/java/org/wltea/analyzer/core/KeywordSegmenter.java:124-126 | the three sub-segmenters analyze the position in order; only their own names in the holders change |
| IkSegmenter.KeywordSegmenter.AddLetterRun | common.ik/src/main/java/org/wltea/analyzer/core/KeywordSegmenter.java:116-121 | the run's TYPE_LETTER lexeme is added to the candidates |
| IkSegmenter.KeywordSegmenter.VisitPosition | common.ik/src/main/java/org/wltea/analyzer/core/KeywordSegmenter.java:101-130 | one turn of the loop keeps the events and the open run equal to those of the positions visited so far, and asks for a refill exactly at a position that is not a letter or digit when the buffer needs refilling |
| IkSegmenter.KeywordSegmenter.FlushAndAnalyze | common.ik/src/main/java/org/wltea/analyzer/core/KeywordSegmenter.java:116-130 | at a position that is not a letter or digit, the open run is flushed, the sub-segmenters analyze, and the refill check is the context's |
| IkSegmenter.KeywordSegmenter.Walk | common.ik/src/main/java/org/wltea/analyzer/core/KeywordSegmenter.java:98-132 | the loop stops at the last available char, or at a position that is not a letter or digit once the buffer needs refilling; its events are those of the visited positions |
| IkSegmenter.KeywordSegmenter.Scan | common.ik/src/main/java/org/wltea/analyzer/core/KeywordSegmenter.java:97-146 | after a pass every maximal run of letters and digits among the visited positions is a candidate, the events are the pass's, and the sub-segmenters are reset |
| IkSegmenter.KeywordSegmenter.Settle | common.ik/src/main/java/org/wltea/analyzer/core/KeywordSegmenter.java:149-153 | the candidates are drained into the arbitrated paths, the queue holds what output gives for them from 0 to the cursor, and the stream offset advances by the cursor |
| IkSegmenter.KeywordSegmenter.Round | common.ik/src/main/java/org/wltea/analyzer/core/KeywordSegmenter.java:97-153 | after a fill that read something, one whole round is logged; the cursor stays short of the available chars and the stream offset advances by it, by at least 1 when two chars or more were available; the queue is the output, from position 0 to the cursor, of the paths arbitration chooses among the pass's candidates, and every run of letters and digits is among those candidates |
| IkSegmenter.KeywordSegmenter.FillRound | common.ik/src/main/java/org/wltea/analyzer/core/KeywordSegmenter.java:89-153 | a fill that read nothing resets the context and logs the end; otherwise a whole round is logged, less input is left, and the queue is the round's arbitrated output over its candidates |
| IkSegmenter.KeywordSegmenter.LoggedRound | common.ik/src/main/java/org/wltea/analyzer/core/KeywordSegmenter.java:97-153 | a whole round after the logged fill, with the same guarantees as a round, the queue included |
| IkSegmenter.KeywordSegmenter.EndOfInput | common.ik/src/main/java/org/wltea/analyzer/core/KeywordSegmenter.java:90-94 | the end of the input: the context is reset and the end logged |
| IkSegmenter.KeywordSegmenter.Poll | common.ik/src/main/java/org/wltea/analyzer/core/KeywordSegmenter.java:83 | the queue's first lexeme that is not a stop word, with its text, or null with the queue emptied |
| IkSegmenter.KeywordSegmenter.FillAndPoll | common.ik/src/main/java/org/wltea/analyzer/core/KeywordSegmenter.java:83-154 | one turn of the loop: a fill that read nothing resets the context and logs the end; otherwise a whole round, less input left, and getNextLexeme over that round's arbitrated output |
| IkSegmenter.RoundExtend | common.ik/src/main/java/org/wltea/analyzer/core/KeywordSegmenter.java:89-153 | a log of rounds up to a fill that read something, followed by the rest of that round, is a log of rounds |
| IkSegmenter.KeywordSegmenter.RoundsUntilLexeme | common.ik/src/main/java/org/wltea/analyzer/core/KeywordSegmenter.java:83-154 | rounds are run until the queue yields a lexeme that is not a stop word, or null with the context reset once a fill reads nothing; the lexeme returned is the first of getNextLexeme over the last round's arbitrated output |
| IkSegmenter.KeywordSegmenter.Next | common.ik/src/main/java/org/wltea/analyzer/core/KeywordSegmenter.java:80-156 | a lexeme already queued is returned without a round; otherwise rounds run until one is found, or null with the context reset at the end of the input; a lexeme found after rounds is the first of getNextLexeme over the last round's arbitrated output; a returned lexeme is not a stop word and carries its buffer text |
| IkContext.AnalyzeContext.CopyToHead | common.ik/src/main/java/org/wltea/analyzer/core/AnalyzeContext.java:174-176 | the given count of chars from the given position move to the head of the buffer; the chars after them are unchanged |
| IkContext.AnalyzeContext.WalkPaths | common.ik/src/main/java/org/wltea/analyzer/core/AnalyzeContext.java:335-365 | the walk's loop appends exactly what the output function gives for the paths from 0 to the cursor |
| Logback.AttrsTextStep | common.logback/src/main/java/common/logback/LogbackSupport.java:192-196 | each turn of the attribute loop appends name="value" and a space |
| Logback.AttrsTextCount | common.logback/src/main/java/common/logback/LogbackSupport.java:192-196 | attribute text adds no char that neither the names and values nor the written quoting hold |
| Logback.NodeTextTags | common.logback/src/main/java/common/logback/LogbackSupport.java:165-198 | with no '<' in names, attributes, text or separator, a node's text holds exactly two '<' per element (nothing is escaped) |
| Logback.NodesTextTags | common.logback/src/main/java/common/logback/LogbackSupport.java:200-206 | the same for a node list |
| Logback.HeaderTags | common.logback/src/main/java/common/logback/LogbackSupport.java:187-198 | a start tag holds exactly one '<' under the same condition |
| Logback.EndTags | common.logback/src/main/java/common/logback/LogbackSupport.java:182-185 | an end tag holds exactly one '<' under the same condition |
| Logback.HeaderExamples | common.logback/src/main/java/common/logback/LogbackSupport.java:176-198 | an element without attributes still gets a space after its name; quotes in a value and '<' in text are not escaped; a null text writes nothing and other node kinds are dropped |
| Logback.MergedFraming | common.logback/src/main/java/common/logback/LogbackSupport.java:239-264 | the merge throws exactly when the local document has no configuration element; otherwise its text starts with the XML declaration and that element's start tag and ends with its end tag |
| Logback.RootPreference | common.logback/src/main/java/common/logback/LogbackSupport.java:257-262 | the local root is printed when there is one, else the common root, else nothing |
| Logback.AppendersNotDeduplicated | common.logback/src/main/java/common/logback/LogbackSupport.java:252-256 | an appender present in both documents is written twice, the local copy first |
| Logback.StringBuffer.constructor | common.logback/src/main/java/common/logback/LogbackSupport.java:247 | the buffer holds the given text |
| Logback.StringBuffer.Append | common.logback/src/main/java/common/logback/LogbackSupport.java:184 | the text is appended at the end |
| Logback.LogbackSupport.constructor | common.logback/src/main/java/common/logback/LogbackSupport.java:34-46 | no line separator, the supported names "appender" and "logger", and printing of the merged configuration on |
| Logback.LogbackSupport.PrintNodeHeader | common.logback/src/main/java/common/logback/LogbackSupport.java:187-198 | appends "<", the name, a space, each attribute as name="value" and a space, then ">" and the separator |
| Logback.LogbackSupport.PrintNodeEnd | common.logback/src/main/java/common/logback/LogbackSupport.java:182-185 | appends "</", the name, ">" and the separator |
| Logback.LogbackSupport.PrintNode | common.logback/src/main/java/common/logback/LogbackSupport.java:165-180 | appends an element's start tag, its children in order and its end tag; a text node's content, nothing when null; nothing for other kinds |
| Logback.LogbackSupport.PrintNodeList | common.logback/src/main/java/common/logback/LogbackSupport.java:200-206 | appends each node in order |
| Logback.LogbackSupport.MergeLogConfig | common.logback/src/main/java/common/logback/LogbackSupport.java:239-264 | IllegalStateException without a local configuration element; otherwise the declaration, its start tag, the local then the common properties, for each supported name the local then the common elements, one root and the end tag |
| Logback.LogbackSupport.PrintSupported | common.logback/src/main/java/common/logback/LogbackSupport.java:252-256 | for each supported name in order, the local elements of that name and then the common ones are appended |
| Logback.LogbackSupport.PrintRoot | common.logback/src/main/java/common/logback/LogbackSupport.java:257-262 | appends the local root, or the common root when the local document has none, or nothing |

## Left out

- Threads and locks: the background executor, `FutureTask.done`, `AtomicBoolean` and `synchronized` in `Dictionary`. The rebuild is modelled as explicit steps (submission, completion with an outcome, a blocking wait). `KeywordSegmenter`'s `synchronized` is out. The refresh locks of `MapBasedCacheService` and `TableCache` are a `lockHeld` parameter or are left out, and so is the scheduled executor that runs the cache sweep.
- The Spring bean lookup in the `Dictionary` constructor and the `IKDictionarySupport` that builds the rebuilt trie: what the rebuild gives is an outcome parameter.
- Reader and resource I/O: the input is a sequence of chars read in chunks, with -1 at its end. A dictionary file is a sequence of lines, and a missing resource is one absent from a map.
- JDBC and Spring plumbing (`JdbcTemplate`, `CacheDBOperator`, the read tasks' query operator): queries are function parameters. The database writes of the cache sweep are returned as values, and the exceptions those writes may throw are not modelled.
- Reflection (declared fields, annotations, `Field.get`/`set`): fields are sequences of records. The primary-key value of a row is a function parameter.
- The MD5 digest itself (RFC 1321) and `String.getBytes` with the platform charset: the digest is a parameter of `Md5Hex.Md5Encode`.
- `MessageFormat`: only the substitution of "{i}" in plain patterns is modelled. Quoting rules and number formatting are not.
- `SQLLimit`: its clause is an opaque string, since its text is `MessageFormat`'s locale-dependent rendering of ints.
- Non-ASCII case mapping and `Character.isWhitespace` beyond ASCII: `toLowerCase`, `toUpperCase` and `trim` are modelled on ASCII.
- 64-bit overflow in the id and offset arithmetic of the read tasks: integers are unbounded.
- The read tasks' `queryMinId`/`queryMaxId` and the thread pool that runs them. `isRunning` is a count of the loop rounds during which the read has not been stopped.
- Logging and console output everywhere; `LogbackSupport.init`, `initLogback`, `loadClasspathFileStream`, `parseDocument`, the temporary file and the Joran configuration; the getters and setters of `LogbackSupport`.
- `AnalyzeContext`'s getters and `Dictionary.isStopWord`/`match*` are functions of the model without contracts of their own. Their meaning is stated by `IkDictionary.MatchWord`. `GetNextLexeme` uses `isStopWord`; the `match*` lookups of the sub-segmenters are inside the abstract analyze, which receives the main and quantifier tries.
- Insert: at one begin the longer lexeme comes first. That is IK Analyzer's `Lexeme.compareTo`, which is not part of this model's sources, so the tie order is an assumption about that class.
- The getters of `SQLFieldCondition` and `SQLFieldRangeCondition` (`getValue`, `getMinVal`, `getMaxVal`): they return the constructor's arguments, which are the fields of the model's datatypes.
- `FileUtil.parseFilename(null)` throws NullPointerException; the model's argument is a string, never null.
- `TableCache` with a null class name: the class name is a string, so the null case is not modelled.
- `Dictionary.matchInMainDict(char[])` on an empty array throws ArrayIndexOutOfBoundsException inside `DictSegment.match`; the model excludes the empty array by a precondition.
- Short reads: `Reader.read` may return fewer chars than asked before the end of the input; the model's reader always returns as many as are asked for or as are left.
- ReadTasks.Put: a handler array holding null makes `BlockingQueue.put` throw NullPointerException, which the loop does not catch, so `runInternal` ends with the earlier elements queued. The model's handler yields no null elements, so this path is not modelled.
- TableCaches.TableCache.Refresh: assumes `init`, a `@PostConstruct` method, has run. Before it the row mapper is built over a null class and throws before the cache is cleared; the model instead clears the cache and, when the table has a row, throws NullPointerException at the first one, as with no key field.
- CacheService.MapCacheService.IsCached: `isCached(null)` throws NullPointerException in `ConcurrentHashMap.contains`; the model's key is never null. The same holds for `IsCachedAsWrittenMisses`.
- ReadTasks.IdRangeReadTask.constructor: the SQL text is the template with the returned columns and the table name put in, which assumes the columns text holds no "#tablename". In Java the second `String.replace` would also rewrite such an occurrence.

## Findings

| source | as written | input that shows it | evidently intended | confidence | as-written member | corrected member |
|---|---|---|---|---|---|---|
| common.cache/src/main/java/common/cache/MapBasedCacheService.java:113-117 | `isCached` calls `ConcurrentHashMap.contains`, which tests the map's values, so a key never matches a wrapper value | any key that has an entry, e.g. right after `writeObject` returned it | `containsKey`: whether the key has an entry | not executed | CacheService.IsCachedAsWrittenMisses | CacheService.MapCacheService.IsCached |
