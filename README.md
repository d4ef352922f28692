# polysync-transcoder core, modelled in Dafny

polysync-transcoder reads PolySync plog log files and turns their binary
records into trees of named values. Two parts make up its core:

- **Reading.** Type descriptions come from TOML tables. There is a newer
  loader, `descriptor::fromToml`, which builds `descriptor::Type` lists, and an
  older one, `plog::descriptor::load`, which fills a catalog of
  `descriptor::type` vectors. The generic `Decoder` walks a description
  field by field over an input stream. The result is a tree of terminal
  values, bit fields, skips, arrays and nested trees. The sequel
  `detector` then picks the type that follows a record, by comparing
  decoded fields against the match values loaded from the TOML
  `detector` tables.
- **Writing.** The plog `writer` serialises the compile-time record types:
  `msg_header`, `log_record`, `log_header`, `log_module` and
  `type_support`, plus decoded trees. Three things sit beside it: the
  packed-size fold, the `describe` folds over the static typemap, and
  the static and dynamic typemaps.

Each core file becomes one Dafny module. Its lemmas live in a companion
module.

| Dafny file | module(s) | models |
|---|---|---|
| common.dfy | Common | `polysync::error` and its context, the exit statuses, decimal text |
| bytes.dfy | Bytes | little- and big-endian byte images of integers |
| toml.dfy | Toml | the cpptoml tables the loaders read |
| descriptor.dfy | Descriptor, Values | field descriptions and decoded trees |
| decoder_spec.dfy, decoder.dfy, decoder_props.dfy | DecoderSpec, GenericDecoder, DecoderLemmas | lib/decoder.cpp |
| descriptor_toml.dfy, descriptor_toml_props.dfy | DescriptorToml, DescriptorTomlLemmas | lib/descriptor/toml.cpp |
| plog_catalog.dfy, plog_catalog_props.dfy | PlogCatalog, PlogCatalogLemmas | transcode/description.cpp |
| detector.dfy, detector_props.dfy | Detector, DetectorLemmas | transcode/detector.cpp |
| layout.dfy, layout_props.dfy | Layout, LayoutLemmas | polysync/transcode/core.hpp |
| typemaps.dfy, typemaps_props.dfy | Typemaps, TypemapLemmas | transcode/core.cpp |
| writer.dfy, writer_props.dfy | Writer, WriterLemmas | polysync/transcode/writer.hpp |
| plog_core.dfy | PlogCore, PlogCoreLemmas | polysync/plog/core.hpp |
| plog_description.dfy | PlogDescription, PlogDescriptionLemmas | polysync/plog/description.hpp |

Conventions:

- **Stateful code becomes a class.** The decoder, the two catalogs, the
  skip counter and the writer are classes. Their fields are what the C++
  object changes: the stream position, the catalog, the detector list,
  the skip index and the bytes written. Each method is proved equal to a
  specification function over the old state, and the lemmas are stated
  about those functions.
- **Exceptions become error values.** Every C++ exception path is a
  `Result` error:
  - `polysync::error` becomes `Failure(msg, status, context)`. The context
    holds the `exception::type`, `exception::module` and `exception::field`
    entries.
  - An `std::ios_base::failure` from a short read becomes `StreamFailure`.
  - A standard-library exception becomes `StdException(what)`.
- **Undefined behaviour is an error too.** Dereferencing an empty cpptoml
  option, calling `as_table` on a non-table, or dereferencing an end
  iterator gives `Undefined(what)`. It is never a precondition.

Behaviour of the code worth noting:

- A terminal-typed array reads one byte per element, whatever its
  declared element type (lib/decoder.cpp:256-263). Two `uint16` elements
  therefore take two bytes, not four; see
  `DecoderLemmas.SixteenBitArrayReadsBytes`.
- A type name that neither the parser table nor the catalog knows is
  reported while decoding, not while loading: "no decoder",
  "no nested descriptor" or "unknown nested type".
- The two loaders treat an unknown `format` differently. The older
  loader only logs a warning (transcode/description.cpp:84-94). The newer
  one throws "unsupported formatter" (lib/descriptor/toml.cpp:152-165).

## Model

| member | source | states |
|---|---|---|
| Common.Code | polysync/exception.hpp:21-28 | each status has its numeric exit code between -5 and 0, and only `ok` is 0 |
| Common.Deref | lib/descriptor/toml.cpp:128-129 | dereferencing a cpptoml option succeeds exactly when it holds a value, and then yields that value |
| Common.NatToString | lib/decoder.cpp:193 | `std::to_string` of a count is a non-empty run of decimal digits without a leading zero |
| Common.NatToStringRoundTrip | lib/decoder.cpp:193 | the decimal text of n reads back as n |
| Common.NatToStringInjective | lib/descriptor/toml.cpp:27-30 | distinct numbers have distinct decimal texts |
| Bytes.LittleEndian | lib/decoder.cpp:23-30 | a native little-endian integer read from k bytes is below 256^k |
| Bytes.BigEndian | lib/decoder.cpp:33-38 | a big-endian integer read from k bytes is below 256^k |
| Bytes.LittleEndianRoundTrip | polysync/transcode/writer.hpp:34-38 | writing v in n little-endian bytes and reading them back gives v mod 256^n |
| Bytes.BigEndianRoundTrip | polysync/transcode/writer.hpp:46-50 | writing v in n big-endian bytes and reading them back gives v mod 256^n |
| Bytes.Signed | lib/decoder.cpp:27-30 | a signed n-byte integer read from its bit pattern lies in the two's complement range |
| Bytes.SignedPattern | lib/decoder.cpp:27-30 | the signed reading of a pattern is congruent to the pattern modulo 256^n |
| Bytes.Unsigned | polysync/transcode/writer.hpp:34-38 | the stored pattern of an integer in n bytes is below 256^n |
| Toml.IndexOf | lib/descriptor/toml.cpp:22 | the position found is at or after the start and holds the key; none found means no entry from the start has the key |
| Toml.Get | lib/descriptor/toml.cpp:184 | `table->get(key)` finds a value exactly when the table contains the key |
| Toml.GetString | lib/descriptor/toml.cpp:86 | `get_as<std::string>` is non-empty exactly when the key holds a string |
| Toml.RequireString | lib/descriptor/toml.cpp:128-129 | dereferencing `get_as<std::string>` succeeds exactly when the key holds a string, with that string |
| Toml.GetInteger | lib/descriptor/toml.cpp:77-79 | an integer read with `get_as` is present exactly when the key holds an integer within the target type's range |
| Descriptor.SkipNamesDistinct | lib/descriptor/toml.cpp:27-30 | two skips with different order numbers get different names |
| Values.Names | lib/decoder.cpp:136 | the names of a tree's nodes, one per node, in node order |
| Values.FindNode | lib/decoder.cpp:208-209 | `find_if` by name: a node found has the name; none found means no node has it |
| DecoderSpec.Read | lib/decoder.cpp:307-310 | reading n bytes succeeds exactly when n bytes remain, yields them and advances by n; otherwise the failbit exception |
| DecoderSpec.ParsePrimitive | lib/decoder.cpp:20-72 | a primitive parser only moves forward, and stays within the stream |
| DecoderSpec.DecoderContext | lib/decoder.cpp:279-291 | an escaping `polysync::error` gets the module "decoder" and the type; a stream failure becomes "read error" with both; anything else passes unchanged |
| DecoderSpec.ParseName | lib/decoder.cpp:84-106 | decoding by name only moves forward within the stream |
| DecoderSpec.ParseType | lib/decoder.cpp:269-294 | a decoded type is a tree named after the type; no stream failure escapes it |
| DecoderSpec.ParseFields | lib/decoder.cpp:275-277 | the field loop only appends to the branch and only moves forward |
| DecoderSpec.ParseField | lib/decoder.cpp:108-196 | one field only appends to the branch and only moves forward |
| DecoderSpec.ParseTerminal | lib/decoder.cpp:115-142 | a terminal field only appends to the branch and only moves forward |
| DecoderSpec.LowBits | lib/decoder.cpp:163-164 | masking off w bits and shifting right split the blob into a part below 2^w and the part above it |
| DecoderSpec.ParseBits | lib/decoder.cpp:144-168 | a bit field only appends to the branch and only moves forward |
| DecoderSpec.ShiftWidth | lib/decoder.cpp:161 | the width the splitting loop uses is the subfield's width narrowed to a byte: below 256, and the width itself when it fits |
| DecoderSpec.ParseSkip | lib/decoder.cpp:189-196 | a skip only appends to the branch and only moves forward |
| DecoderSpec.ParseArray | lib/decoder.cpp:198-265 | an array only appends to the branch and only moves forward |
| DecoderSpec.ParseTrees | lib/decoder.cpp:245-250 | the element loop yields exactly count trees, after those already decoded |
| GenericDecoder.Decoder.constructor | lib/decoder.cpp:75-79 | a decoder starts on the stream at the given position |
| GenericDecoder.Decoder.ReadBytes | lib/decoder.cpp:307-310 | the bytes read and the new position are those of `DecoderSpec.Read` |
| GenericDecoder.Decoder.ReadHash | lib/decoder.cpp:296-305 | result and new position are those of `DecoderSpec.ParseHash`: the next 16 bytes, most significant first |
| GenericDecoder.Decoder.DecodePrimitive | lib/decoder.cpp:20-72 | result and new position are those of the primitive parser's specification |
| GenericDecoder.Decoder.DecodeName | lib/decoder.cpp:84-106 | result and new position are those of `DecoderSpec.ParseName` |
| GenericDecoder.Decoder.DecodeType | lib/decoder.cpp:269-294 | result and new position are those of `DecoderSpec.ParseType`, error context included |
| GenericDecoder.Decoder.BuildField | lib/decoder.cpp:108-196 | result and new position are those of `DecoderSpec.ParseField` |
| GenericDecoder.Decoder.DecodeTerminal | lib/decoder.cpp:115-142 | result and new position are those of `DecoderSpec.ParseTerminal` |
| GenericDecoder.Decoder.DecodeBits | lib/decoder.cpp:144-168 | the loop peeling subfields off the blob, each by its width held in a byte, gives what `DecoderSpec.ParseBits` gives, including the undefined mask of a subfield of 31 or more bits |
| GenericDecoder.Decoder.DecodeSkip | lib/decoder.cpp:189-196 | result and new position are those of `DecoderSpec.ParseSkip` |
| GenericDecoder.Decoder.DecodeArray | lib/decoder.cpp:198-265 | the length, the `std::length_error` of a byte array beyond max_size() and the element loops give what `DecoderSpec.ParseArray` gives |
| GenericDecoder.Decoder.DecodeTrees | lib/decoder.cpp:242-248 | the loop over a nested array's elements gives the trees and position of `DecoderSpec.ParseTrees`, or its first error |
| GenericDecoder.Decoder.ReadByteRun | lib/decoder.cpp:256-261 | reading an array of terminals one byte at a time gives the bytes and position of a single `DecoderSpec.Read` of the whole count, or the stream failure |
| DecoderLemmas.PrimitiveBeforeCatalog | lib/decoder.cpp:86-91 | a name with a primitive parser decodes the same whatever the catalog holds under that name |
| DecoderLemmas.UnknownNameFails | lib/decoder.cpp:93-99 | an unknown name fails with "no decoder", its type, the module "decoder" and the status description_error (-4) |
| DecoderLemmas.RawReadsToRecordEnd | lib/decoder.cpp:65-71 | "raw" takes exactly the bytes up to the record end; a record end beyond the stream is a read failure |
| DecoderLemmas.BigEndianTwin | lib/decoder.cpp:32-38 | each multi-byte integer parser has a ".be" twin with the same width and sign, read big-endian |
| DecoderLemmas.TerminalIntegerField | lib/decoder.cpp:125-137 | an integer terminal field (a one-byte one in little-endian order) appends one node with the value of its bytes in the field's byte order, and advances by the width; a short stream is a read failure |
| DecoderLemmas.TerminalWithoutTypemap | lib/decoder.cpp:117-121 | a terminal type missing from the typemap fails with "no typemap" naming the field |
| DecoderLemmas.BigEndianByteField | lib/decoder.cpp:130-135 | a big-endian one-byte field asks for "uint8.be" or "int8.be", which have no parser, and fails with "no decoder" |
| DecoderLemmas.SplitBitsNames | lib/decoder.cpp:159-166 | a bit field makes one node per subfield, named after it, in order |
| DecoderLemmas.SplitBitsField | lib/decoder.cpp:159-164 | subfield i holds the bits of its width (narrowed to a byte, as the `std::uint8_t size` holds it) above the narrowed widths before it, the value narrowed to a byte |
| DecoderLemmas.SplitBitsLossless | lib/decoder.cpp:159-164 | with no subfield wider than 8 bits, the subfield values reassemble into the blob modulo 2^(total width) |
| DecoderLemmas.BitFieldDecoding | lib/decoder.cpp:146-164 | a total width that is not whole bytes is rejected; otherwise width/8 bytes are read, most significant first, a short stream fails the read, and a subfield of 31 or more (narrowed) bits makes the int mask `(1 << size) - 1` undefined |
| DecoderLemmas.MaskWidths | lib/decoder.cpp:161-163 | a 31-bit subfield overflows the int mask, while a 256-bit one is narrowed to 0 bits and is defined |
| DecoderLemmas.BitFieldLossless | lib/decoder.cpp:155-164 | with no subfield wider than a byte, the subfields of a decoded bit field reassemble into the number its bytes hold |
| DecoderLemmas.SkipDecoding | lib/decoder.cpp:189-196 | a skip consumes exactly its size and keeps those bytes under "skip-" and its order; too few bytes is a read failure |
| DecoderLemmas.FindNodeFirst | lib/decoder.cpp:208-209 | the size field found is the first earlier sibling with that name |
| DecoderLemmas.SiblingArrayLength | lib/decoder.cpp:205-233 | an array sized by a field takes the value of the first earlier sibling of that name as `stoll` into a size_t: a non-negative value as is, a negative one plus 2^64, and one outside the long long range throws std::out_of_range |
| DecoderLemmas.TerminalArrayTooLong | lib/decoder.cpp:254-257 | a terminal array longer than max_size() throws std::length_error, which decode passes on unchanged |
| DecoderLemmas.NegativeSizeSibling | lib/decoder.cpp:223-257 | an int32 size field holding -1 becomes the size 2^64 - 1, and a byte array sized by it throws std::length_error |
| DecoderLemmas.MissingSizeField | lib/decoder.cpp:211-214 | a missing size field fails with "array size indicator field not found", the field and description_error |
| DecoderLemmas.FixedArrayLength | lib/decoder.cpp:231-234 | a fixed array has its declared length |
| DecoderLemmas.TerminalArrayBytes | lib/decoder.cpp:254-263 | a terminal array decodes the same whatever its element type, one byte per element, for a length up to max_size() |
| DecoderLemmas.TreesOfType | lib/decoder.cpp:243-250 | every element of a nested array is a tree of the element type |
| DecoderLemmas.NestedArrayTrees | lib/decoder.cpp:236-253 | a nested array holds exactly its length in trees of the element type; an element type not in the catalog fails with "unknown nested type" |
| DecoderLemmas.TerminalNodeNames | lib/decoder.cpp:135-137 | a terminal field adds one node under the field's name |
| DecoderLemmas.BitsNodeNames | lib/decoder.cpp:159-167 | a bit field adds its subfields' names |
| DecoderLemmas.ArrayNodeNames | lib/decoder.cpp:251-262 | an array adds one node under the field's name |
| DecoderLemmas.FieldNodeNames | lib/decoder.cpp:108-196 | each field adds exactly the node names its description predicts |
| DecoderLemmas.FieldsNodeNames | lib/decoder.cpp:275-277 | the field loop adds the predicted names of all remaining fields, in order |
| DecoderLemmas.StructureInOrder | lib/decoder.cpp:269-294 | a decoded structure is a tree named after its type, whose node names follow the field declaration order |
| DecoderLemmas.ReadFailureReported | lib/decoder.cpp:286-291 | a stream failure inside a structure surfaces as "read error" with the type and the module "decoder" |
| DecoderLemmas.SixteenBitArrayReadsBytes | lib/decoder.cpp:256-263 | a count of 2 followed by a uint16 array reads two one-byte elements, ending 4 bytes in |
| DescriptorToml.NextSkipIndex | lib/descriptor/toml.cpp:18-29 | the std::uint16_t skip counter stays below 65536 |
| DescriptorToml.SkipField | lib/descriptor/toml.cpp:25-35 | a skip field is named "skip-" and its index, and carries that index as its order |
| DescriptorToml.SetEndian | lib/descriptor/toml.cpp:147-150 | a field is big-endian exactly when "endian" is present; nothing else changes |
| DescriptorToml.SetFormat | lib/descriptor/toml.cpp:152-165 | setting the format changes neither the name, the type nor the byte order |
| DescriptorToml.BuildFields | lib/descriptor/toml.cpp:192-203 | the description loop makes one field per entry, after the fields before it |
| DescriptorToml.WithTypeContext | lib/descriptor/toml.cpp:208-217 | an error without a type gets one; an error that has one is rethrown unchanged; other exceptions pass through |
| DescriptorToml.SkipFactory.Make | lib/descriptor/toml.cpp:25-35 | the counter moves on even when the size cannot be read, and the field is numbered by the new counter |
| DescriptorToml.Load | lib/descriptor/toml.cpp:169-218 | the loader's loops give what `DescriptorToml.FromToml` gives |
| DescriptorToml.LoadNested | lib/descriptor/toml.cpp:49-61 | the loop over sub-tables gives what `DescriptorToml.NestedTables` gives |
| DescriptorToml.LoadDescription | lib/descriptor/toml.cpp:184-206 | the loop with a fresh skip counter gives what `DescriptorToml.DescribedType` gives |
| DescriptorTomlLemmas.FromTomlErrorTyped | lib/descriptor/toml.cpp:208-217 | every `polysync::error` leaving fromToml carries a type name |
| DescriptorTomlLemmas.NestedTablesJoined | lib/descriptor/toml.cpp:53-58 | the sub-table loop from any entry is the concatenation that `Joined` defines |
| DescriptorTomlLemmas.NestedTablesConcatenate | lib/descriptor/toml.cpp:49-61 | a table without "description" yields the types of its sub-tables concatenated in entry order, each under "path.key" |
| DescriptorTomlLemmas.SubPathJoins | lib/descriptor/toml.cpp:55 | a sub-table's name is the key at the top level, else "path.key" |
| DescriptorTomlLemmas.DescriptionMustBeTableArray | lib/descriptor/toml.cpp:184-188 | a "description" that is not a table array is rejected, with the type and the module "description" |
| DescriptorTomlLemmas.DescriptionMakesOneType | lib/descriptor/toml.cpp:190-206 | a description yields exactly one type, named by the path, with one field per entry |
| DescriptorTomlLemmas.DescriptionErrorContext | lib/descriptor/toml.cpp:208-215 | an entry error without context is reported with the path and the module "description" |
| DescriptorTomlLemmas.BuildFieldsAt | lib/descriptor/toml.cpp:193-203 | entry j makes field j: a skip numbered by the skips before it plus one, any other entry by the field factory |
| DescriptorTomlLemmas.SkipNumbering | lib/descriptor/toml.cpp:27-34 | within one type, the k-th skip is named "skip-" and k, and skips are numbered 1, 2, 3, ... in order |
| DescriptorTomlLemmas.RequiredKeys | lib/descriptor/toml.cpp:118-126 | a field entry without "name", or with a name but no "type", is rejected with the matching message |
| DescriptorTomlLemmas.FieldKinds | lib/descriptor/toml.cpp:131-144 | "count" makes an array (an integer count fixed, a string count sized by that field); otherwise a terminal type name makes a terminal and any other name a nested type |
| DescriptorTomlLemmas.NegativeCount | lib/descriptor/toml.cpp:77-79 | a negative integer count is rejected by the conversion to size_t |
| DescriptorTomlLemmas.FieldOptions | lib/descriptor/toml.cpp:147-165 | "endian" alone makes a field big-endian; a known "format" is installed, and an unknown one is rejected with "unsupported formatter" |
| PlogCatalog.SkipEntry | transcode/description.cpp:41-45 | a skip entry is a field named "skip" |
| PlogCatalog.FormatOf | transcode/description.cpp:84-94 | only "hex" installs a formatter; any other format leaves the field plain |
| PlogCatalog.Description | transcode/description.cpp:38-95 | the description loop makes one field per entry, after the fields before it |
| PlogCatalog.Emplace | transcode/description.cpp:97 | `catalog.emplace` adds the name, keeps every existing entry, and stores the description only when the name is new |
| PlogCatalog.WithLoadContext | transcode/description.cpp:100-106 | an escaping error keeps its message, status and field, gets the module "description", and gets the name as type unless it already has one |
| PlogCatalog.TypeCatalog.Describe | transcode/description.cpp:38-95 | the loop that appends and then tunes the last field gives what `PlogCatalog.Description` gives |
| PlogCatalog.TypeCatalog.Load | transcode/description.cpp:20-107 | the catalog after a load, and its error, are those of `PlogCatalog.LoadSpec` |
| PlogCatalogLemmas.LoadKeepsEntries | transcode/description.cpp:97 | a load never removes or replaces a catalog entry |
| PlogCatalogLemmas.NestedKeepsEntries | transcode/description.cpp:27-30 | the recursion over sub-tables never removes or replaces an entry |
| PlogCatalogLemmas.LoadAddsOnlyBelow | transcode/description.cpp:20-107 | a load registers only the table's own name and names below "name." |
| PlogCatalogLemmas.NestedAddsOnlyBelow | transcode/description.cpp:27-30 | the sub-table recursion registers only names below "name." |
| PlogCatalogLemmas.NestedRegistered | transcode/description.cpp:27-30 | after an error-free recursion, each described sub-table is registered as "name.key" |
| PlogCatalogLemmas.SubTablesRegistered | transcode/description.cpp:27-31 | a table without "description" that loads without error registers each described sub-table under "name.key" |
| PlogCatalogLemmas.DescribedInstalls | transcode/description.cpp:33-97 | a table-array description that loads without error installs its fields under the name if the name is new, and leaves the catalog unchanged otherwise |
| PlogCatalogLemmas.DescriptionMustBeTableArray | transcode/description.cpp:34-36 | a "description" that is not a table array is rejected, with the name and the module "description" |
| PlogCatalogLemmas.LoadErrorContext | transcode/description.cpp:100-106 | every `polysync::error` leaving a load names a type and the module "description" |
| PlogCatalogLemmas.EntryErrorContext | transcode/description.cpp:100-105 | an entry error without context is reported with the table's name and the module "description" |
| PlogCatalogLemmas.DescriptionAt | transcode/description.cpp:38-95 | each entry makes the field at its own position |
| PlogCatalogLemmas.DescriptionInOrder | transcode/description.cpp:38-95 | a loaded description has one field per entry, in entry order |
| PlogCatalogLemmas.SkipEntryNamedSkip | transcode/description.cpp:41-45 | a skip entry is the field "skip" of its int size whatever else the entry holds, and loads whenever the size is an int |
| PlogCatalogLemmas.RequiredKeys | transcode/description.cpp:48-51 | a field entry without "name", or with a name but no "type", is rejected with the matching message |
| PlogCatalogLemmas.FieldKinds | transcode/description.cpp:56-78 | "count" makes an array (an integer count fixed, otherwise sized by a field); a name in the name map makes a terminal, any other a nested type |
| PlogCatalogLemmas.FieldOptions | transcode/description.cpp:80-94 | "endian" alone makes a field big-endian; "hex" installs the hex formatter and an unknown format is ignored |
| Detector.DigitIn | transcode/detector.cpp:26-28 | a digit's value is below its base |
| Detector.SkipSpace | transcode/detector.cpp:26-28 | `stoul` skips exactly the leading white space |
| Detector.DigitsEnd | transcode/detector.cpp:26-28 | `stoul` takes the longest run of digits of its base |
| Detector.Stoul | transcode/detector.cpp:26-28 | a successful `std::stoul` is at most ULONG_MAX |
| Detector.HexStoul | transcode/detector.cpp:22-29 | `hex_stoul` fits the target width, and succeeds exactly when `stoul` succeeds in the base the "0x.+" pattern selects |
| Detector.Convert | transcode/detector.cpp:34-48 | only the unsigned integer and floating types convert; an integer match value is an unsigned value of the field's width |
| Detector.Emplace | transcode/detector.cpp:108 | `match.emplace` keeps the map sorted by key, ignores a key already present, and otherwise adds exactly the new entry |
| Detector.FindField | transcode/detector.cpp:83-84 | the field found is the first of the description with the name; none found means no field has it |
| Detector.BranchMatch | transcode/detector.cpp:80-109 | a branch's match map is sorted by field name, as a std::map iterates; when it loads, every pair names a terminal field of the parent's description and holds a string |
| Detector.Branches | transcode/detector.cpp:70-115 | the branch loop only appends detectors |
| Detector.LoadSpec | transcode/detector.cpp:51-116 | a load only appends detectors |
| Detector.LoadNested | transcode/detector.cpp:55-59 | the sub-table recursion only appends detectors |
| Detector.DetectorCatalog.MatchOf | transcode/detector.cpp:78-109 | the pair loop gives what `Detector.BranchMatch` gives |
| Detector.DetectorCatalog.Load | transcode/detector.cpp:51-116 | the detectors after a load, and its error, are those of `Detector.LoadSpec` |
| Detector.DetectorCatalog.Detect | transcode/detector.cpp:120-191 | the catalog loop gives what `Detector.DetectSpec` gives |
| DetectorLemmas.DecimalRoundTrip | transcode/detector.cpp:22-29 | the decimal text of any unsigned long reads back as that number, narrowed to the target width |
| DetectorLemmas.DecimalOutOfRange | transcode/detector.cpp:26-28 | a decimal number beyond ULONG_MAX throws std::out_of_range |
| DetectorLemmas.HexRoundTrip | transcode/detector.cpp:22-26 | "0x" and the hex digits of any unsigned long read back as that number, narrowed to the target width |
| DetectorLemmas.BareHexPrefix | transcode/detector.cpp:24-28 | "0x" alone does not match the hex pattern and reads in decimal as 0 |
| DetectorLemmas.NegativeWraps | transcode/detector.cpp:26-28 | "-1" as a uint8 reads as 255: stoul negates modulo 2^64 and the cast narrows |
| DetectorLemmas.NoDigits | transcode/detector.cpp:22-29 | text with no digit where one is needed throws std::invalid_argument |
| DetectorLemmas.NoStringConverter | transcode/detector.cpp:44-45 | a terminal type without a converter fails with "no string converter" and its type name |
| DetectorLemmas.KeysEmplace | transcode/detector.cpp:108 | after emplace the map's keys are the old keys plus the new one |
| DetectorLemmas.MatchKeys | transcode/detector.cpp:80-109 | the keys of a loaded match map are exactly its pairs' keys |
| DetectorLemmas.PairsConvert | transcode/detector.cpp:83-108 | every pair of a loaded branch names a terminal field, holds a string and converts for that field's type |
| DetectorLemmas.MatchKeeps | transcode/detector.cpp:108 | a key already in the match map keeps its entry through the rest of the branch, as `std::map::emplace` does |
| DetectorLemmas.MatchValues | transcode/detector.cpp:80-108 | a key of a loaded match map holds `convert` of its first pair's text for the named field's type; later pairs with the key are ignored |
| DetectorLemmas.SortedKeyUnique | transcode/detector.cpp:78 | a match map holds one entry per key |
| DetectorLemmas.UnknownFieldDiscrepancy | transcode/detector.cpp:86-91 | a key naming no field is an "unknown field" error with description_error, while the code as written dereferences the end iterator |
| DetectorLemmas.CompoundBranch | transcode/detector.cpp:96-101 | a key naming a non-terminal field fails with "illegal branch on compound type" and description_error |
| DetectorLemmas.NoDetectorKey | transcode/detector.cpp:61-64 | a described table without "detector" installs nothing |
| DetectorLemmas.OneDetectorPerBranch | transcode/detector.cpp:70-115 | each branch appends exactly one detector, in table order: parent the table's name, child the branch key, its match map |
| DetectorLemmas.NoTypeDescription | transcode/detector.cpp:75-76 | a branch for a type without a description fails with "no type description" naming it |
| DetectorLemmas.LoadParents | transcode/detector.cpp:51-116 | every installed detector has the table's name or a name below it as parent |
| DetectorLemmas.BranchesParents | transcode/detector.cpp:70-110 | every detector a branch loop installs has the table's name as parent |
| DetectorLemmas.NestedParents | transcode/detector.cpp:55-59 | every detector the sub-table recursion installs has a parent below "name." |
| DetectorLemmas.MismatchesFrom | transcode/detector.cpp:145-157 | the mismatch loop from any entry finds nothing exactly when the rest of the match agrees with the tree, up to the first missing field |
| DetectorLemmas.NoMismatchIffMatches | transcode/detector.cpp:143-157 | a detector shows no mismatch exactly when it matches the tree |
| DetectorLemmas.DetectFromSelected | transcode/detector.cpp:133-180 | the catalog loop's outcome is decided by the matching detectors of the parent's type, in catalog order |
| DetectorLemmas.DetectCharacterised | transcode/detector.cpp:120-190 | an empty tree fails; otherwise no matching detector gives "raw", exactly one gives its child, and two or more fail naming the first two; a detector "matches" when every match entry agrees up to the first field the tree lacks, so a missing field does not stop a detector (see Findings) |
| DetectorLemmas.MissingFieldPasses | transcode/detector.cpp:145-157 | a detector whose first match field is missing from the tree shows no mismatch and passes, while the intended test fails it |
| DetectorLemmas.MissingFieldSelected | transcode/detector.cpp:120-165 | a detector of "p" keyed on "f" is selected for a "p" record without an "f" field |
| DetectorLemmas.StrictMismatchesFrom | transcode/detector.cpp:145-157 | the corrected loop, counting a missing field as a mismatch, finds nothing from an entry on exactly when every later entry is present with its value |
| DetectorLemmas.StrictNoMismatchIffFullyMatches | transcode/detector.cpp:145-157 | the corrected loop finds nothing exactly when every match field is present with its value, a stricter test than the one the code applies |
| DetectorLemmas.DetectedFromParent | transcode/detector.cpp:133-190 | a detected child comes from a detector of the parent's type whose test passes |
| Layout.DescribeFold | polysync/transcode/core.hpp:114-124 | the describe fold adds one descriptor per member after those before it |
| LayoutLemmas.PackedFoldSum | polysync/transcode/core.hpp:95-102 | the packed fold from member i is the running sum plus the members' packed sizes |
| LayoutLemmas.PackedStruct | polysync/transcode/core.hpp:95-102 | a struct packs to the sum of its members' packed sizes, with no padding |
| LayoutLemmas.MsgHeaderPacked | polysync/transcode/core.hpp:62-66 | msg_header packs to 20 bytes on every host |
| LayoutLemmas.LogRecordPacked | polysync/transcode/core.hpp:72-78 | log_record packs to 40 bytes on every host |
| LayoutLemmas.LogHeaderPacked | polysync/transcode/core.hpp:52-60 | log_header packs to 16 bytes plus twice the host's sizeof a vector |
| LayoutLemmas.DescribeFoldFields | polysync/transcode/core.hpp:116-123 | the fold from member i succeeds exactly when those members' types are mapped, each giving its name and the type's name |
| LayoutLemmas.DescribeFields | polysync/transcode/core.hpp:114-124 | describe succeeds exactly when every member type is mapped, giving one (name, type name) per member in order |
| LayoutLemmas.DescribeFoldMissing | polysync/transcode/core.hpp:118-119 | the fold throws for the first unmapped member from i on |
| LayoutLemmas.DescribeMissing | polysync/transcode/core.hpp:118-119 | the first unmapped member makes describe throw "missing typemap for" and its name |
| TypemapLemmas.FromEntriesKeys | transcode/core.cpp:7-24 | a map built from an initializer list has exactly the entries' keys |
| TypemapLemmas.FromEntriesFirst | transcode/core.cpp:7-24 | the first entry of a key wins; later ones are dropped |
| TypemapLemmas.FromEntriesValue | transcode/core.cpp:7-24 | every value in the map is the value of its key's first entry |
| TypemapLemmas.StaticLookup | transcode/core.cpp:7-24 | every static entry except the shadowed timestamp is in the table as written |
| TypemapLemmas.DynamicLookup | transcode/core.cpp:26-44 | every dynamic entry is in the table as written |
| TypemapLemmas.IntegerEntries | transcode/core.cpp:8-15 | "intN" and "uintN" are N/8 bytes under the same name in both tables |
| TypemapLemmas.BigEndianEntries | transcode/core.cpp:35-38 | ">uintN" has the size of "uintN" |
| TypemapLemmas.GuidAndMsgType | transcode/core.cpp:39-40 | "ps_guid" is 8 bytes and "ps_msg_type" 4 |
| TypemapLemmas.TablesAgree | transcode/core.cpp:16-21 | both tables give msg_header 20 bytes and log_record 40, and a timestamp 8 |
| TypemapLemmas.TimestampShadowed | transcode/core.cpp:15-21 | timestamp is std::uint64_t, so the static table describes it as "uint64" and has no "ps_timestamp" entry |
| TypemapLemmas.DescribeMsgHeader | polysync/transcode/core.hpp:140 | msg_header describes as type: uint32, timestamp: uint64, src_guid: uint64 |
| TypemapLemmas.DescribeLogRecord | polysync/transcode/core.hpp:139 | log_record describes as three uint32, a uint64 and the msg_header |
| TypemapLemmas.DescribeLogModule | polysync/transcode/core.hpp:135-137 | log_module cannot be described: hash_type has no static entry, so describe throws for build_hash |
| Writer.NumBytes | polysync/transcode/writer.hpp:34-38 | an n-byte number writes exactly n bytes |
| Writer.BigBytes | polysync/transcode/writer.hpp:46-50 | a big-endian n-byte number writes exactly n bytes |
| Writer.ExportBits | polysync/transcode/writer.hpp:75-79 | export_bits writes at least one byte that reads back big-endian as the hash, with no leading zero byte, so fewer than 16 bytes for a small hash |
| Writer.HashBytes | lib/decoder.cpp:302-304 | the corrected hash form is always the 16 bytes the decoder reads |
| Writer.NameBytes | polysync/transcode/writer.hpp:84-88 | a name writes 2 length bytes and then its length narrowed to std::uint16_t in bytes |
| Writer.ArrayBytes | polysync/transcode/writer.hpp:69-72 | an array writes its element count times the element size |
| Writer.LeafWritten | polysync/transcode/writer.hpp:90-95 | writing a leaf value fails exactly when it has no stored bytes to copy |
| Writer.DescribeLoop | polysync/transcode/writer.hpp:113-119 | the describe loop only appends to the text so far |
| Writer.PlogWriter.constructor | polysync/transcode/writer.hpp:16 | a writer starts with nothing written, over the given typemap |
| Writer.PlogWriter.WriteNumber | polysync/transcode/writer.hpp:34-38 | appends exactly the number's encoding |
| Writer.PlogWriter.WriteBigEndian | polysync/transcode/writer.hpp:46-50 | appends exactly the big-endian encoding |
| Writer.PlogWriter.WriteHash | polysync/transcode/writer.hpp:75-79 | appends the hash's encoding, the corrected 16-byte form |
| Writer.PlogWriter.WriteName | polysync/transcode/writer.hpp:84-88 | appends exactly the name's encoding |
| Writer.PlogWriter.WriteArray | polysync/transcode/writer.hpp:69-72 | appends exactly the array's encoding |
| Writer.PlogWriter.WriteSequence | polysync/transcode/writer.hpp:61-66 | the element loop appends exactly the sequence's encoding |
| Writer.PlogWriter.WriteStruct | polysync/transcode/writer.hpp:26-30 | the member loop appends exactly the struct's encoding |
| Writer.PlogWriter.Write | polysync/transcode/writer.hpp:26-88 | the overload for a value's type appends exactly its encoding |
| Writer.PlogWriter.WriteTree | polysync/transcode/writer.hpp:90-95 | the node loop appends what `Writer.NodesWritten` defines and stops at the same error |
| Writer.PlogWriter.Encode | polysync/transcode/writer.hpp:99-102 | encoding a node appends what `Writer.NodeWritten` defines |
| Writer.PlogWriter.Describe | polysync/transcode/writer.hpp:107-121 | the describe loop gives what `Writer.DescribeText` gives |
| WriterLemmas.NumRoundTrip | polysync/transcode/writer.hpp:34-50 | every n-byte number, native or big-endian, reads back from its bytes |
| WriterLemmas.RoundTrip | polysync/transcode/writer.hpp:26-88 | every value whose lengths fit their length types reads back from what the writer writes, leaving the bytes after it untouched |
| WriterLemmas.ElementsRoundTrip | polysync/transcode/writer.hpp:61-66 | the remaining elements of a sequence read back from their encodings |
| WriterLemmas.ItemsRoundTrip | polysync/transcode/writer.hpp:69-72 | the remaining items of an array read back from their bytes |
| WriterLemmas.FieldsRoundTrip | polysync/transcode/writer.hpp:26-30 | the remaining members of a struct read back from their encodings |
| WriterLemmas.EncodingPacked | polysync/transcode/core.hpp:90-102 | a value of a fixed-size type is written in exactly its packed size |
| WriterLemmas.FieldsPacked | polysync/transcode/core.hpp:95-102 | the remaining members of a fixed-size struct write their packed sizes' sum |
| WriterLemmas.RecordsWritten | polysync/transcode/writer.hpp:26-38 | a msg_header writes 20 bytes and a log_record 40 |
| WriterLemmas.NameLayout | polysync/transcode/writer.hpp:84-88 | a name is its length modulo 65536 in two little-endian bytes, then that many bytes of text; a name that fits is written whole |
| WriterLemmas.SequenceLayout | polysync/transcode/writer.hpp:61-66 | a sequence is its count narrowed to the length type, then its elements |
| WriterLemmas.HashWrittenShort | polysync/transcode/writer.hpp:75-79 | export_bits writes a hash below 2^120 in fewer than 16 bytes, which the decoder does not read back |
| WriterLemmas.HashRoundTrip | lib/decoder.cpp:296-305 | the 16-byte hash form reads back through the decoder's hash reader |
| WriterLemmas.HashFullWidth | polysync/transcode/writer.hpp:75-79 | export_bits agrees with the 16-byte form exactly on hashes of at least 2^120 |
| WriterLemmas.IntNodeRoundTrip | polysync/transcode/writer.hpp:99-102 | an integer node is written so that the decoder's parser for its type reads it back |
| WriterLemmas.TreeNodeByNode | polysync/transcode/writer.hpp:90-95 | when no node fails, a tree is written node by node, back to back |
| WriterLemmas.DescribeLoopJoined | polysync/transcode/writer.hpp:113-119 | with every member type mapped, the loop appends "name: type size; " per member in order |
| WriterLemmas.DescribeLoopMissing | polysync/transcode/writer.hpp:116-117 | the first unmapped member type stops the loop with "type not described for field" and the record and field names |
| WriterLemmas.DescribeTextCharacterised | polysync/transcode/writer.hpp:107-121 | describe succeeds exactly when the record and all member types are mapped, giving "name { " then the members' parts then "}"; an unmapped record throws "no typemap description" |
| WriterLemmas.DescribeTextMissing | polysync/transcode/writer.hpp:116-117 | a mapped record with an unmapped member type throws naming the first such field |
| WriterLemmas.JoinedMsgHeader | polysync/transcode/writer.hpp:118 | msg_header's member parts are "type: uint32 4; timestamp: uint64 8; src_guid: uint64 8; " |
| WriterLemmas.DescribeMsgHeaderText | polysync/transcode/writer.hpp:107-121 | with the tables of transcode/core.cpp, msg_header describes itself as "msg_header { type: uint32 4; timestamp: uint64 8; src_guid: uint64 8; }" |
| PlogCoreLemmas.EqualFromElementwise | polysync/plog/core.hpp:50 | `std::equal` from position i holds exactly when the elements agree from there on |
| PlogCoreLemmas.SequenceEqualsCharacterised | polysync/plog/core.hpp:46-51 | sequences of different lengths are unequal; sequence equality is element-wise equality |
| PlogCoreLemmas.PlogLogRecordMembers | polysync/plog/core.hpp:95-117 | the adapted plog log_record is its declared members without the blob, and packs to 20 bytes |
| PlogDescriptionLemmas.DescribedSizeIsPacked | polysync/plog/description.hpp:61-85 | sizing the described fields through a dynamic table that agrees with the static one gives the struct's packed size |
| PlogDescriptionLemmas.RecordsSized | polysync/plog/description.hpp:76-85 | with the tables of transcode/core.cpp, msg_header's described fields size to 20 bytes and log_record's to 40 |
| PlogDescriptionLemmas.LogHeaderUnsized | polysync/plog/description.hpp:80-82 | log_header describes, but "sequence<log_module>" has no dynamic entry, so sizing its fields throws from `map::at` |
| PlogDescriptionLemmas.SizeOfFieldsStops | polysync/plog/description.hpp:80-82 | sizing fails with the error of the first field that cannot be sized |

## Left out

- I/O is reduced to values:
  - The input stream is a byte sequence with a read position.
  - The output stream is a byte sequence that grows.
  - Logging (`BOOST_LOG_SEV`) and the `std::cout` line in the big-endian
    writer are not modelled.
- Floating point is kept as bit patterns. A decoded float is its width and
  its bits. "double.be" and "float64.be" keep the low 32 bits, as the C++
  reinterprets the swapped 64-bit value as a float. The detector's
  `stof`/`stod` converters keep the match text (`RealText`); IEEE parsing
  is not modelled.
- The global catalogs become parameters or class fields:
  `descriptor::catalog`, `plog::descriptor::catalog`, `detector::catalog`,
  `static_typemap` and `dynamic_typemap`.
- Some tables in headers are not part of this model. `terminalNameMap`,
  `terminalTypeMap`, `formatFunction`, `namemap` and the typemap names
  used in `convert` are a `Typemaps` parameter. The detector's
  `typemap.at` is a map parameter.
- The host sizes are a `Host` parameter: `sizeof` of std::string,
  std::vector and hash_type.
- The host is taken to be little-endian. The writer copies a number's
  memory (polysync/transcode/writer.hpp:36-37) and the decoder reads
  native integers the same way; both are modelled as little-endian bytes
  (`Bytes.LittleEndian`). A big-endian host is not modelled.
- cpptoml's iteration order over a table's keys is taken to be the entry
  order of the `Toml.Table` value.
- The decoder's recursion through the catalog carries a `fuel` parameter.
  When fuel runs out the result is `OutOfFuel`, an error the C++ cannot
  produce. `DecoderLemmas.TypeFuel` and its siblings show that more fuel
  never changes an outcome that did not run out. The fuel only bounds the
  nesting depth.
- The array size taken from a sibling node: the C++ prints the node and
  parses the text with `stoll`. print_tree.hpp is not part of this model.
  The model takes the integer value of an integer node. Any other node
  gives "cannot parse array size value". A negative value wraps to a size
  of at least 2^63: a byte array that long throws std::length_error, and a
  nested array goes on decoding elements towards that count.
- A bit subfield's value is narrowed to `std::uint8_t`, which the model
  writes out as `% 256`; so is its width. A narrowed width of 31 or more
  makes the int mask `(1 << size) - 1` undefined, which the model reports
  as `Undefined` once the bytes are read. Subfields get the "hex"
  formatter by name; the formatter function itself is not modelled.
- The formatter functions, including the older loader's hex lambda, are
  represented by name only.
- The raw `write(buf, sz)` overload has no caller in the core and is not
  modelled.
- Writing a byte buffer, a list of trees or a converted float copies the
  container object's memory, which the model cannot represent. The model
  gives `Undefined` for these.
- Allocation failures (`std::bad_alloc`) are not modelled.
- A big-endian arithmetic type narrower than its storage type is not
  modelled: the writer writes `sizeof(T)` bytes.
- Writer.PlogWriter.WriteArray: arrays are modelled with integer
  elements only.
- Writer.PlogWriter.WriteHash: writes the corrected 16-byte form (see
  Findings). The as-written `export_bits` form is `Writer.ExportBits`.
- Detector.Convert: float and double match values keep their text rather
  than a parsed number, so a detector test on a floating field compares
  the text.
- The regular expression "0x.+" treats only `\n` and `\r` as line
  terminators that `.` does not match.
- test/types.hpp, transcode/exception.cpp, conanfile.py and
  polysync/transcode/logging.hpp are not part of this model. They hold
  test types, error printing, packaging and logging.

## Findings

| source | as written | input that shows it | evidently intended | confidence | as-written member | corrected member |
|---|---|---|---|---|---|---|
| transcode/detector.cpp:87-91 | the "unknown field" error attaches `exception::field(it->name)` where `it == desc.end()` | a detector branch whose key names no field of the parent's description, e.g. key "x" over a description without a field "x" | report "unknown field" with the key as type and status description_error | not executed | Detector.UnknownFieldAsWritten (DetectorLemmas.UnknownFieldDiscrepancy) | Detector.UnknownField (DetectorLemmas.UnknownFieldDiscrepancy) |
| transcode/detector.cpp:145-157 | a match field the tree lacks ends the loop with `break`, leaving `mismatch` as it was, so a detector with nothing mismatched so far is selected although its log line says "not matched: ... missing field" | a "p" record without the field "f" and a detector of "p" keyed on "f" | a missing field counts as a mismatch, so the detector is not selected | not executed | Detector.Mismatches (DetectorLemmas.MissingFieldPasses, DetectorLemmas.MissingFieldSelected) | Detector.StrictMismatches (DetectorLemmas.StrictNoMismatchIffFullyMatches) |
| polysync/transcode/writer.hpp:75-79 | `export_bits(value, it, 8)` writes only the hash's significant bytes, without leading zeros | the hash 1 is written as the single byte 1, while the decoder (lib/decoder.cpp:302-304) reads 16 bytes for a hash | write all 16 bytes of hash_type, most significant first, so that the decoder reads the hash back | not executed | Writer.ExportBits (WriterLemmas.HashWrittenShort, WriterLemmas.HashFullWidth) | Writer.HashBytes (WriterLemmas.HashRoundTrip) |
