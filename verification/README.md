# Tamga in Dafny

A model of the self-contained parts of Tamga, a C++17 library for Ukrainian qualified electronic signatures, with proofs
of what those parts promise. `dafny verify dfyconfig.toml` checks the whole project.

What is modelled, by group of files:

- **PAdES signing** (`Pades*.dfy`, `Pdf*.dfy`, `FieldNames.dfy`). `SignPdf` is a class `Run` over one growing file: it
  appends a signature revision, patches the byte range and the contents in place, appends a security store, and adds
  document timestamps and stores in turn until the evidence is stable. Every completed revision is logged; the invariant
  over the log says where each revision lies, what it signed, and how its trailer is linked. The theorems read everything
  back from the final bytes with independent readers: ranges, signed bytes, tokens, cross-reference sections, object
  headers and bodies, signature dictionaries, trailers and their chain, stored evidence, and the verifier's verdict.
  Signer, timestamp service and evidence provider are arbitrary functions of the number of the call and its inputs;
  qpdf's printing of dictionaries and its digest are arbitrary functions.
- **JSON** (`Json*.dfy`). The scanner's loops, the printer, and the lookup; the grammar of RFC 8259 as syntax trees,
  with the wider white space of `isspace`, strings by octets and surrogate escapes in pairs; exactness of the scanner
  against that grammar with the nesting limit; string tokens against section 7 of RFC 8259; lookup in the text as lookup
  in the tree; the key descriptor of the command line.
- **Key containers** (`Der.dfy`, `Sha1*.dfy`, `JavaUtf.dfy`, `Jks*.dfy`, `Base64.dfy`, `Pem*.dfy`, `Zs2*.dfy`). The DER
  reader over wrap-around words; SHA-1 over 32-bit words, with a known answer; Java keystores in both layouts, from the
  file to the recovered key and back, with the exact set of accepted files; PEM files, likewise; the ZS2 walk.
- **Codecs** (`Utf.dfy`, `HexDecimal.dfy`). UTF-8, UTF-16 and wide strings; serial numbers in decimal.
- **Atomic file replacement** (`AtomicFiles.dfy`). A state machine of any number of interleaved writers with failures,
  crashes and process identifiers used again; the call itself is a method whose every path is a run of the machine.
- **The XML walk** (`XmlWalk.dfy`). The explicit-stack traversal against document order.

`ByteStrings.dfy` and `Decimal.dfy` hold the shared vocabulary: octet strings, a piece of text lying `At` an offset, and
decimal numerals.

Conventions. Octets are integers from 0 to 255 and texts are sequences of them. A loop of the source is a method with a
loop, proved equal to a function on values; the properties are lemmas about those functions. `npos` is -1; an ordered map
is an ascending sequence. Shifts and masks of unsigned words are written as division and remainder, except in SHA-1,
which uses 32-bit vectors. `std::sort` and `std::reverse` are modelled by what they return.

Behaviours a reader might not expect, modelled as the code has them, each with an input and the exact condition:

- A startxref of 2^63 or more becomes a negative `/Prev` (`PadesTheorems.TrailersChain`, `PadesTheorems.ChainBreaks`).
- A field name that is not plain text can repeat a name the document has: existing names are compared as stored, the
  request as given (`FieldNames.StoredNameIsNewIff`, `FieldNames.CyrillicNameRepeats`). How qpdf stores a text string is
  an arbitrary function of which one thing is assumed: exactly plain text, which is ASCII without the codes that
  PDFDocEncoding gives to other characters, is stored as itself.
- A cross-reference line is longer than twenty bytes for offsets from 10^10 on and generations from 10^5 on
  (`PadesFields.RunLines`, `PadesFields.LongLine`).
- A Java keystore in which any alias or certificate type has an unpaired surrogate is refused as a whole
  (`JksRoundTrip.StoreIsReadIff`, `JksRoundTrip.UnpairedAliasRefused`).
- In a ZS2 container, a safe of another type than data, such as an encrypted one, hides every key behind it
  (`Zs2RoundTrip.FoundIff`, `Zs2RoundTrip.HiddenKey`).
- A JSON string with an unpaired surrogate escape, which the grammar allows, is refused; one that is not UTF-8 is
  accepted as it is (`JsonTokens.TokenAcceptedIff`, `JsonTokens.LoneEscapeRefused`, `JsonTokens.EncodingIsKept`,
  `JsonTokens.IllFormedAccepted`).
- The Base64 decoder accepts texts that no encoder writes (`Base64.DecodedIsCanonical`, `Base64.LooseTextAccepted`).

## Model

| member | source | states |
|---|---|---|
| `PadesBuilder.SignPdf` | src/lib/pades/PadesBuilder.cpp:317-644 | the document is a prefix of the output, and a successful run has the whole Outcome: sound and linked revisions over the unchanged document, signatures over the bytes the services saw, store and timestamp alternation, and every object, number and name of every revision as it follows from the document and the revisions before; an accepted run that fails has one cause that is true of it: the very call of this run that was refused, the token that was too long, or the next revision, with its objects, that outgrew 64-bit offsets |
| `PadesBuilder.FindPdfHeader` | src/lib/pades/PadesBuilder.cpp:110-118 | true exactly when the header stands wholly within the first 1024 bytes |
| `PadesBuilder.RunKeepsDocument` | src/lib/pades/PadesBuilder.cpp:468-643 | the document is a prefix of the file after every step of a run |
| `PadesBuilder.Run.constructor` | src/lib/pades/PadesBuilder.cpp:468-469 | a run starts from the document, with a line end added if it lacks one, and an empty log that is already sound |
| `PadesBuilder.Run.Reserve` | src/lib/pades/PadesBuilder.cpp:471-486 | a signature revision with blank slots and its byte range is appended; it fails only when the file outgrows 64-bit offsets; log and evidence are untouched |
| `PadesBuilder.Run.Seal` | src/lib/pades/PadesBuilder.cpp:487-518 | writing the token completes exactly one revision, whose recorded signed bytes are what Extract gave before the write; refused only when the token does not fit |
| `PadesBuilder.Run.ReserveName` | src/lib/pades/PadesBuilder.cpp:412-413 | every reserved field name is the one UniqueFieldName picks, and differs from the names collected from the document and from all earlier ones of the run |
| `PadesBuilder.Run.SignatureObjects` | src/lib/pades/PadesBuilder.cpp:427-466 | the four objects of a signature revision: the next free numbers in order, the Catalog under its own number with the form and the store in force, the form with the document's fields, the widgets so far and the new one |
| `PadesBuilder.Run.AppendReserved` | src/lib/pades/PadesBuilder.cpp:471-486 | layout, append and range write leave the old file a prefix and give the revision the previous startxref as /Prev, converted to a signed 64-bit number |
| `PadesBuilder.Run.StoreObjects` | src/lib/pades/PadesBuilder.cpp:522-554 | the objects of a store revision under the next free numbers hold the current evidence, the store lists the streams of the certificates, of the CRLs and of the OCSP answers each in its own list, and the Catalog names the form in force and the store |
| `PadesBuilder.Run.AppendStore` | src/lib/pades/PadesBuilder.cpp:520-560 | a store revision is appended that holds all evidence so far; it fails only when the document's own store is unreadable |
| `PadesBuilder.Run.SignMain` | src/lib/pades/PadesBuilder.cpp:471-518 | one sealed revision, signed and (from T on) timestamped by the services over its own bytes, with the returned evidence gathered |
| `PadesBuilder.Run.StoreNext` | src/lib/pades/PadesBuilder.cpp:561 | a store revision in its place: stores and sealed revisions alternate, each store larger than the one before |
| `PadesBuilder.Run.Stamp` | src/lib/pades/PadesBuilder.cpp:571-632 | one document timestamp; renewal is asked for exactly when the returned evidence was new, and then the evidence set grew strictly |
| `PadesBuilder.Run.AddTimestamps` | src/lib/pades/PadesBuilder.cpp:563-640 | the loop ends with a timestamp whose evidence is all in the last store, after at most four timestamps, or fails for a listed cause |
| `PadesBuilder.MakeSignature` | src/lib/pades/PadesBuilder.cpp:487-512 | the CMS handed on is the services' answer to exactly the signed bytes, and from T on carries the token for its signature value |
| `PadesBuilder.SealStep` | src/lib/pades/PadesBuilder.cpp:513-518 | sealing keeps every run invariant: sound revisions, linked trailers, distinct names |
| `PadesBuilder.StoreStep` | src/lib/pades/PadesBuilder.cpp:555-559 | appending a store keeps every run invariant |
| `PadesBuilder.LayoutOfSignature` | src/lib/pades/PadesBuilder.cpp:203-236 | after sorting the Catalog is first and the reported slots are those of the signature dictionary |
| `PadesBuilder.RangeRefused` | src/lib/pades/PadesBuilder.cpp:278-295 | the 80-byte slot refuses a range only if the file has outgrown 64-bit offsets |
| `PadesBuilder.ContentsRefused` | src/lib/pades/PadesBuilder.cpp:297-310 | the contents slot refuses only tokens longer than the slot |
| `PadesBuilder.TrailerLinks` | src/lib/pades/PadesBuilder.cpp:241-271 | every laid-out trailer has the right /Root and /Size, and the previous startxref as a signed number in /Prev |
| `PadesTheorems.SignedBytesSurvive` | src/lib/pades/PadesBuilder.cpp:468-643 | in the final file of every run, every signature's range reads back, extracts exactly the bytes handed to the signer or timestamp service, and its contents decode to the token |
| `PadesTheorems.ExtractsSigned` | src/lib/pades/PdfByteRange.cpp:14-31 | extraction from the final file equals the signed bytes of the revision |
| `PadesTheorems.RangeReadsBack` | src/lib/pades/PadesBuilder.cpp:278-295 | the range that was written is the range a reader of the final file finds |
| `PadesTheorems.ContentsReadBack` | src/lib/pades/PadesVerifier.cpp:25-43 | slot, hex decoding and trimming give back the token for every token that is one whole DER sequence |
| `PadesTheorems.CrossReferencesHold` | src/lib/pades/PadesBuilder.cpp:171-194 | for every revision of a run, in the final file: the section read at its startxref expands to exactly the offset map, its runs are consecutive and maximal, and at every entry's offset the number and generation of that entry are read as an object header (section 7.5.4 of ISO 32000-1) |
| `PadesTheorems.EntryPointsAtHeader` | src/lib/pades/PadesBuilder.cpp:211-216 | at an entry's offset a decimal number, a space, a decimal number and the object keyword are read, and the numbers are the entry's |
| `PadesTheorems.ObjectHasEntry` | src/lib/pades/PadesBuilder.cpp:211-216 | every object of a revision has an entry at its place |
| `PadesTheorems.ObjectReadsBack` | src/lib/pades/PadesBuilder.cpp:209-218 | every object is found through the section of its revision: header with its numbers, its body, the closing keyword |
| `PadesTheorems.HeaderReadsBack` | src/lib/pades/PadesBuilder.cpp:215-216 | a printed header is read as its number and its generation, in that order |
| `PadesTheorems.DictionaryReadsBack` | src/lib/pades/PadesBuilder.cpp:77-82 | so is every signature dictionary: the type and sub-filter of its kind, the range, the contents string and the further entries, each in its place |
| `PadesTheorems.SectionReadsBack` | src/lib/pades/PadesBuilder.cpp:238-239 | startxref names the xref keyword and the section after it reads back |
| `PadesTheorems.TrailerStandsThere` | src/lib/pades/PadesBuilder.cpp:270-271 | directly after the section stand the trailer keyword, the printed dictionary, the startxref with the offset of the section, and the marker, with which the revision ends |
| `PadesTheorems.StartXrefReadsBack` | src/lib/pades/PadesBuilder.cpp:270-272 | the file cut at the end of a revision has that revision's startxref |
| `PadesTheorems.TrailersChain` | src/lib/pades/PadesBuilder.cpp:253 | each /Prev is what ParseLastStartXref finds in the file as it was before the revision (section 7.5.6 of ISO 32000-1), as a signed 64-bit number: equal to it exactly below 2^63 |
| `PadesTheorems.ChainBreaks` | src/lib/pades/PadesBuilder.cpp:120-138 | any document with startxref 2^63 at its end, whatever its body and whatever text without that keyword follows, is read as such, and signing it writes /Prev -2^63 |
| `PdfTrailer.Signed64IsExact` | src/lib/pades/PadesBuilder.cpp:253 | the conversion to a signed number keeps exactly the numbers below 2^63 |
| `PadesTheorems.LinkHolds` | src/lib/pades/PadesBuilder.cpp:518 | revisions lie end to end and each /Prev is the startxref before it, as a signed 64-bit number |
| `PadesTheorems.OutputIsSignable` | src/lib/pades/PadesBuilder.cpp:385-389 | the output can be signed again: its last startxref is that of its last revision |
| `PadesTheorems.DocumentThenRevisions` | src/lib/pades/PadesBuilder.cpp:468-469 | the first revision starts right after the document, or after one line end that is added exactly when the document does not end in one |
| `PadesLongTerm.LtaShape` | src/lib/pades/PadesBuilder.cpp:563-640 | an LTA run: signature, then stores and document timestamps in turn, one to four timestamps, the last revision a timestamp directly after the last store |
| `PadesLongTerm.StoreIsTimestamped` | src/lib/pades/PadesBuilder.cpp:598-618 | the last store lies byte for byte inside what the last timestamp was issued for |
| `PadesLongTerm.EvidenceIsCovered` | src/lib/pades/PadesBuilder.cpp:71-75 | every non-empty blob returned for any token of the run stands octet for octet in the last store, between the stream keywords and after a decimal length that is its own, in the file and at the same offset in the bytes that the last timestamp was issued for |
| `PadesLongTerm.EvidenceIsListed` | src/lib/pades/PadesBuilder.cpp:530-554 | a reader who follows the last store finds each of them: the list of its kind names a key, the section has an entry for that key, at that offset the key's numbers are read, and the stream follows; in the file and in the last timestamp's signed bytes |
| `PadesLongTerm.EvidenceIsStored` | src/lib/pades/PadesBuilder.cpp:520-561 | at LT and LTA the same, in the file, for the evidence that was given and for all that was returned |
| `PadesLongTerm.StreamReads` | src/lib/pades/PadesBuilder.cpp:71-75 | a stream body is read as the decimal length of the blob, the keyword, the blob and the closing keyword |
| `PadesLongTerm.StoreIsSigned` | src/lib/pades/PadesBuilder.cpp:598-618 | the bytes the last timestamp was issued for contain the store revision as the file does |
| `PadesLongTerm.ServicesWereAsked` | src/lib/pades/PadesBuilder.cpp:487-512 | what a finished run asked: the signer for the signed bytes; from T on the signature value of the answer, a token for that value and the answer with the token in it; for each document timestamp a token for its own signed bytes; and the answers are what the file holds |
| `PadesLongTerm.StreamInFile` | src/lib/pades/PadesBuilder.cpp:539-544 | the key of a stream object leads, through the section of its revision and a header with its numbers, to a length, the keyword and the octets of the blob |
| `PadesEvidence.MergeEvidence` | src/lib/pades/PadesBuilder.cpp:328-343 | the merged evidence, and a flag that is true exactly when something was added |
| `PadesEvidence.MergeList` | src/lib/pades/PadesBuilder.cpp:331-338 | one list of the merge, with the same exactness of the flag |
| `PadesEvidence.MergeMeaning` | src/lib/pades/PadesBuilder.cpp:328-343 | merging keeps what was held, holds all non-empty incoming blobs and nothing else, and changes nothing exactly when they were held already; a change strictly grows the size |
| `PadesStore.AppendStreams` | src/lib/pades/PadesBuilder.cpp:539-544 | one stream object for each non-empty blob, under consecutive numbers |
| `PadesStore.StoreHolds` | src/lib/pades/PadesBuilder.cpp:539-544 | every non-empty blob of the evidence has its stream among the appended objects |
| `PadesObjects.StoreListsEvidence` | src/lib/pades/PadesBuilder.cpp:522-554 | the three lists that the store prints name a stream for every non-empty blob of the evidence, each in the list of its kind |
| `PadesObjects.FormIsComplete` | src/lib/pades/PadesBuilder.cpp:432-433 | after any number of revisions, the form in force is that of the last signature or timestamp and lists the document's fields and every widget of the run; the last Catalog names it and the last store |
| `PadesObjects.FieldsHold` | src/lib/pades/PadesBuilder.cpp:576-584 | what that list holds: the document's fields first, then exactly the widgets of the run |
| `PadesObjects.NumbersGrow` | src/lib/pades/PadesBuilder.cpp:427-429 | new objects of a later revision have greater numbers, so no revision replaces a new object of an earlier one |
| `PadesLog.RevisionStays` | src/lib/pades/PadesBuilder.cpp:557 | appending bytes disturbs no revision already in the file |
| `PadesLog.RunAppends` | src/lib/pades/PadesBuilder.cpp:557-558 | a sound revision appended at the end, linked to the last one, keeps a run sound |
| `PadesSealing.PatchesFill` | src/lib/pades/PadesBuilder.cpp:293-308 | both in-place writes, one after the other, only fill the two slots of the dictionary |
| `PadesSealing.Seals` | src/lib/pades/PadesBuilder.cpp:479-516 | append, range write and contents write leave a sound revision whose signed bytes are what the signer was given |
| `PadesSealing.SealedText` | src/lib/pades/PadesBuilder.cpp:479-516 | the file after sealing is the old file and the revision with its slots filled |
| `FieldNames.UniqueFieldName` | src/lib/pades/PadesBuilder.cpp:157-164 | a name outside the given set, for every set: the wanted one if free, otherwise that, a hyphen and the decimal digits of the least free suffix from 2 on; the search ends, and the 32-bit suffix does not wrap for fewer than 2^32-2 names |
| `FieldNames.TriedAreDistinct` | src/lib/pades/PadesBuilder.cpp:160-163 | n suffixes give n different candidates, so a finite set runs out of them |
| `FieldNames.StoredNameIsNewIff` | src/lib/pades/PadesBuilder.cpp:147-164 | existing names are compared as stored and the request as given: the stored name is new to every document exactly when the request is plain text |
| `FieldNames.SigningTwiceRepeats` | src/lib/pades/PadesBuilder.cpp:147-164 | signing again under a name that is not plain picks the same name, which is stored as the earlier one was |
| `FieldNames.CyrillicNameRepeats` | src/lib/pades/PadesBuilder.cpp:147-164 | a Cyrillic name for which that happens |
| `PadesFields.PlainNamesAreDistinct` | src/lib/pades/PadesBuilder.cpp:412-413 | over a whole run with a plain request, the names as stored differ from the document's and from each other |
| `PadesFields.FieldIsWritten` | src/lib/pades/PadesBuilder.cpp:84-90 | in the final file the widget of every signature and timestamp is found through the section of its revision, with a name of its kind, numbered if need be, and the key of the signature dictionary, which is found as well |
| `PdfAssembly.AssembleRevision` | src/lib/pades/PadesBuilder.cpp:196-274 | the revision text over the sorted objects, its slots, its startxref and the trailer that goes with it |
| `PdfAssembly.LayOut` | src/lib/pades/PadesBuilder.cpp:211-236 | the object loop: texts, offset map, slots of the signature object and greatest number |
| `PdfAssembly.SlotsFound` | src/lib/pades/PadesBuilder.cpp:220-235 | the searches report the placeholders of the signature object wherever sorting has put it |
| `PdfAssembly.RevisionIdCovers` | src/lib/pades/PadesBuilder.cpp:256-269 | the second identity of a revision is the digest of its trailer without identity, its offset in decimal and all of its text before the trailer |
| `PdfPlaceholders.Located` | src/lib/pades/PadesBuilder.cpp:220-235 | the four searches in the text appended so far find exactly the two placeholders of the dictionary, whatever follows them |
| `PdfPlaceholders.BodyFree` | src/lib/pades/PadesBuilder.cpp:77-82 | no bracket comes before the range slot and no angle bracket before the contents slot in a signature dictionary |
| `PdfPlaceholders.BodyParts` | src/lib/pades/PadesBuilder.cpp:77-82 | where key, range slot and contents slot lie in a signature dictionary |
| `PdfRevision.SortObjectsSorts` | src/lib/pades/PadesBuilder.cpp:202-206 | sorting gives the same objects in order |
| `PdfRevision.CatalogFirst` | src/lib/pades/PadesBuilder.cpp:202-206 | created objects with greater numbers, then the Catalog: sorting moves the Catalog to the front and nothing else |
| `PdfRevision.EntriesAscending` | src/lib/pades/PadesBuilder.cpp:209-213 | the offset map is ascending, and every entry is the offset of an object |
| `PdfRevision.EntriesCover` | src/lib/pades/PadesBuilder.cpp:209-213 | with distinct numbers no object loses its entry |
| `PdfRevision.SameShapeSameEntries` | src/lib/pades/PadesBuilder.cpp:284-308 | overwriting bodies in place moves no object and changes no entry |
| `PdfRevision.PatchRevision` | src/lib/pades/PadesBuilder.cpp:293-308 | a write inside one body is the revision of the patched objects |
| `PdfXref.AppendXrefSubsections` | src/lib/pades/PadesBuilder.cpp:171-194 | the two nested loops append exactly the printed maximal runs of the map |
| `PdfXref.GrowRun` | src/lib/pades/PadesBuilder.cpp:178-182 | the run grows exactly to the first gap |
| `PdfXref.AppendLines` | src/lib/pades/PadesBuilder.cpp:185-191 | the entry lines of one run |
| `PdfXref.LineIsTwentyBytes` | src/lib/pades/PadesBuilder.cpp:188 | an entry line is the twenty bytes of section 7.5.4 of ISO 32000-1 exactly while the offset has at most ten digits and the generation five |
| `PdfXref.LineReads` | src/lib/pades/PadesBuilder.cpp:188 | an entry line reads as the offset, a space, the generation and the keyword with its line end |
| `PadesFields.RunLines` | src/lib/pades/PadesBuilder.cpp:171-194 | all entry lines of all revisions of a run have twenty bytes exactly when the Catalog's generation is below 10^5 and the last object starts below 10^10, as it does in files of at most 10^10 bytes |
| `PadesFields.LongLine` | src/lib/pades/PadesBuilder.cpp:188 | an entry whose line is too long |
| `PdfXref.ReadXrefAt` | src/lib/pades/PadesBuilder.cpp:171-194 | a printed section reads back as the maximal runs, wherever it stands |
| `PdfXref.RunsAreMaximal` | src/lib/pades/PadesBuilder.cpp:175-183 | the runs flatten to the map, each is consecutive, and between two there is a gap |
| `PdfXref.RunsExpand` | src/lib/pades/PadesBuilder.cpp:175-183 | from any position on, the runs expand to the rest of the map |
| `PdfTrailer.ParseLastStartXref` | src/lib/pades/PadesBuilder.cpp:120-138 | succeeds exactly when the last keyword is followed by a decimal number below 2^64, and gives that number |
| `PdfTrailer.ReadUint64` | src/lib/pades/PadesBuilder.cpp:129-137 | the 64-bit accumulator gives up exactly when the number does not fit |
| `PdfTrailer.TrailerPromises` | src/lib/pades/PadesBuilder.cpp:241-269 | the new trailer: a signed /Prev, /Root, the least /Size above every number that does not shrink, none of the eight stream keys, everything else kept, /ID of the document's identity and the revision's |
| `PdfTrailer.TailReadsBack` | src/lib/pades/PadesBuilder.cpp:270-271 | a file that ends in a revision's tail has that startxref |
| `PdfTrailer.LastTailReadsBack` | src/lib/pades/PadesBuilder.cpp:120-138 | so has a file with more text after the tail, when the keyword does not occur in it |
| `PdfByteRange.ExtractComputed` | src/lib/pades/PdfByteRange.cpp:5-31 | the computed range leaves out exactly the contents string with its delimiters |
| `PdfByteRange.ExtractUnaffected` | src/lib/pades/PdfByteRange.cpp:5-31 | neither a write between the delimiters nor appended bytes change what the range extracts |
| `PdfByteRange.SlotAlwaysFits` | src/lib/pades/PadesBuilder.cpp:31 | any three 64-bit numbers fit the slot |
| `PdfByteRange.ReadRangeAt` | src/lib/pades/PadesBuilder.cpp:284-293 | a written range field reads back as the range |
| `PdfByteRange.HexRoundTrip` | src/lib/pades/PadesBuilder.cpp:47-56 | hex over the zero placeholder decodes to the data and zero octets |
| `PdfByteRange.HexIsUpper` | src/lib/pades/PadesBuilder.cpp:47-56 | only digits and the letters from A to F are written |
| `PdfByteRange.ContentsRoundTrip` | src/lib/pades/PadesVerifier.cpp:25-43 | decoding the padded slot and trimming gives the DER back, for every whole sequence and any padding |
| `PdfByteRange.TrimKeepsOther` | src/lib/pades/PadesVerifier.cpp:25-43 | what does not start with a complete sequence is not trimmed |
| `PadesVerifier.CheckRange` | src/lib/pades/PadesVerifier.cpp:206-216 | the check in wrap-around 64-bit arithmetic equals the exact one for all ranges |
| `PadesVerifier.ValidRangeLeavesGap` | src/lib/pades/PadesVerifier.cpp:206-216 | a range passes exactly when it takes a part of the file from its start on but for one non-empty gap, and then that is what is extracted |
| `PadesVerifier.Aggregate` | src/lib/pades/PadesVerifier.cpp:117-130 | for arbitrary 64-bit ranges: the greatest end inside the file, no overflow, and coverage plus tail is the file size |
| `PadesVerifier.CoverageUnique` | src/lib/pades/PadesVerifier.cpp:120-128 | the coverage end is determined by the ranges |
| `PadesVerifier.EndsWithPdfEof` | src/lib/pades/PadesVerifier.cpp:49-62 | true exactly when the file is some text, the marker and padding only |
| `PadesVerifier.RangeOfRevision` | src/lib/pades/PadesVerifier.cpp:206-216 | every range the builder writes ends with its revision and passes the check on the final file |
| `PadesVerifier.EndsIncrease` | src/lib/pades/PadesVerifier.cpp:121-128 | signed revision ends strictly increase |
| `PadesVerifier.OutputEndsInMarker` | src/lib/pades/PadesVerifier.cpp:49-62 | builder output ends in the marker |
| `PadesVerifier.CoverageOfRun` | src/lib/pades/PadesVerifier.cpp:117-130 | whatever other fields there are, coverage of builder output is the whole file at B, T and LTA; at LT it ends where the store begins exactly when no field's range ends in the store, and the uncovered tail is then the store revision |
| `PadesVerifier.VerdictOnRun` | src/lib/pades/PadesVerifier.cpp:132-147 | whatever other fields there are, builder output is complete at B, T and LTA; at LT it is complete exactly when some field's range ends with the file, and otherwise the verdict is that of the page comparison |
| `PadesVerifier.EarlierFieldsEndBefore` | src/lib/pades/PadesVerifier.cpp:121-128 | at LT no range of the run, and none of the document that ends inside it, ends in the store |
| `PadesVerifier.AssessCoverage` | src/lib/pades/PadesVerifier.cpp:117-178 | over any file and any fields: the file counts as covered exactly when the range of a field ends with it, or it ends in the marker and the pages are unchanged since the furthest end; and when each of the statuses is given |
| `PadesVerifier.VerdictIs` | src/lib/pades/PadesVerifier.cpp:135-176 | the classification by itself: when it is favourable, and that it says data was appended exactly when no range ends with the file and the marker is missing |
| `PadesVerifier.AppendedIsNoticed` | src/lib/pades/PadesVerifier.cpp:138-150 | builder output with anything appended after which the file does not end in the marker is reported as such, unless some field claims to reach the new end |
| `PadesVerifier.OneOctetIsNoticed` | src/lib/pades/PadesVerifier.cpp:138-150 | for instance with one octet appended |
| `PadesVerifier.LastOctetDecides` | src/lib/pades/PadesVerifier.cpp:49-62 | a file whose last octet is neither padding nor the last of the marker does not end in the marker |
| `PadesVerifier.PaddingIsIgnored` | src/lib/pades/PadesVerifier.cpp:53-59 | padding after the marker makes no difference |
| `Der.WordReaderIsExact` | src/lib/util/Der.cpp:17-47 | the word-sized length reader and the X.690 section 8.1.3 reader differ only on lengths with superfluous leading zero octets |
| `Der.InBoundsExact` | src/lib/util/Der.cpp:11-13 | the guard in wrap-around words is the exact comparison |
| `Der.ParseDerLength` | src/lib/util/Der.cpp:17-47 | with 4- or 8-octet words: succeeds exactly as the unbounded reader with at most a word of length octets, with the exact value and cursor |
| `Der.ReadLengthOctets` | src/lib/util/Der.cpp:36-44 | the shift loop gives the exact big-endian value, or stops before a bit would be lost |
| `Der.ParseTlvAt` | src/lib/util/Der.cpp:49-67 | the exact element at an offset, inside limit and buffer, or failure |
| `Der.TlvOfEncoded` | src/lib/util/Der.cpp:49-67 | every minimally encoded element inside the limit is read back |
| `Der.TlvExtends` | src/lib/util/Der.cpp:49-67 | bytes after an element do not change how it reads |
| `Utf.DecodeUtf8ToUtf16` | src/lib/util/Utf.cpp:77-135 | the loop computes the decoding, or fails |
| `Utf.EncodeUtf16ToUtf8` | src/lib/util/Utf.cpp:137-163 | the loop computes the encoding, or fails |
| `Utf.DecodeAccepts` | src/lib/util/Utf.cpp:77-135 | decoding accepts exactly the well-formed sequences of section 4 of RFC 3629 |
| `Utf.ReadUtf8Meaning` | src/lib/util/Utf.cpp:82-131 | one turn reads exactly one UTF8-char of that grammar |
| `Utf.EncodeAccepts` | src/lib/util/Utf.cpp:137-163 | encoding accepts exactly the sequences without unpaired surrogates |
| `Utf.DecodeThenEncode` | src/lib/util/Utf.cpp:77-163 | encoding undoes decoding on everything decoding accepts |
| `Utf.EncodeThenDecode` | src/lib/util/Utf.cpp:77-163 | decoding undoes encoding on everything encoding accepts |
| `Utf.WriteThenRead8` | src/lib/util/Utf.cpp:167-192 | the octets appended for a code point are read back as it, whatever follows |
| `Utf.Utf16ToWide` | src/lib/util/Utf.cpp:19-48 | the loop that joins pairs into 4-byte units |
| `Utf.WideToUtf16` | src/lib/util/Utf.cpp:50-74 | the loop that splits them again |
| `Utf.WideRoundTrip` | src/lib/util/Utf.cpp:19-74 | widening and narrowing is the identity on every UTF-16 sequence, ill-formed ones included |
| `Utf.WideIsCodePoints` | src/lib/util/Utf.cpp:19-74 | for text, the wide string is one character for each code point, and narrowing it gives the UTF-16 of those code points |
| `JsonScanner.ParseJsonHexQuad` | src/lib/util/Json.cpp:38-59 | the value of four hex digits, or failure |
| `JsonScanner.ParseUnicodeEscape` | src/lib/util/Json.cpp:114-136 | a code point with its trail surrogate if it needs one |
| `JsonScanner.ParseJsonString` | src/lib/util/Json.cpp:69-143 | the string loop: text and end offset, or failure |
| `JsonScanner.SkipJsonWhitespace` | src/lib/util/Json.cpp:63-67 | the end of the white space |
| `ByteStrings.SpacesAre` | src/lib/util/Json.cpp:63-67 | the six octets that count as white space |
| `JsonScanner.SkipJsonNumberToken` | src/lib/util/Json.cpp:151-195 | the end of the number token, or failure |
| `JsonScanner.SkipJsonLiteralToken` | src/lib/util/Json.cpp:197-204 | the end of the literal, or failure |
| `JsonScanner.SkipJsonValue` | src/lib/util/Json.cpp:208-235 | the end of the value, or failure; ends on every input |
| `JsonScanner.SkipJsonComposite` | src/lib/util/Json.cpp:240-291 | the end of the composite, or failure; ends on every input |
| `JsonScanner.SkipMember` | src/lib/util/Json.cpp:258-288 | one turn of the member loop: failure, end, or the next member |
| `JsonStrings.StringAccepts` | src/lib/util/Json.cpp:69-143 | every token of octets, short escapes, escaped scalar values and escaped surrogate pairs is accepted, with the octets its characters stand for |
| `JsonStrings.StringParts` | src/lib/util/Json.cpp:69-143 | whatever is accepted is such a token |
| `JsonTokens.TokenAcceptedIff` | src/lib/util/Json.cpp:69-143 | a token of the grammar of section 7 of RFC 8259, taken by octets, is accepted exactly when its surrogate escapes are paired |
| `JsonTokens.LoneEscapeRefused` | src/lib/util/Json.cpp:119-127 | a token of that grammar with a lone surrogate escape, which is refused |
| `JsonTokens.TokenHere` | src/lib/util/Json.cpp:69-143 | whatever is accepted is a token of that grammar by octets, with its surrogate escapes paired |
| `JsonTokens.ShortEscapesAre` | src/lib/util/Json.cpp:93-112 | the eight short escapes of the grammar and what they stand for |
| `JsonTokens.EncodingIsKept` | src/lib/util/Json.cpp:84-87 | the text that comes out is well-formed UTF-8 exactly when what stands between the quotes is |
| `JsonTokens.IllFormedAccepted` | src/lib/util/Json.cpp:84-87 | an accepted string that is not UTF-8 |
| `JsonStrings.EscapeJson` | src/lib/util/Json.cpp:384-405 | the escaping loop |
| `JsonStrings.QuotedReadsBack` | src/lib/util/Json.cpp:69-143 | quote, EscapeJson(s), quote parses to s for every octet string s, anywhere in a document |
| `JsonStrings.EscapedIsClean` | src/lib/util/Json.cpp:384-405 | no control character, and no quote that could end the string, is printed |
| `JsonNumbers.NumberAccepts` | src/lib/util/Json.cpp:151-195 | every numeral of section 6 of RFC 8259 is accepted where the next octet does not prolong it |
| `JsonNumbers.NumberParts` | src/lib/util/Json.cpp:151-195 | whatever is accepted is such a numeral, and stops there |
| `JsonGrammar.SkipIsExact` | src/lib/util/Json.cpp:208-291 | SkipJsonValue succeeds and ends at e exactly when a well-formed tree stands there whose composites, with the enclosing depth, nest at most 100 deep, and it ends at e |
| `JsonGrammar.ValueAccepts` | src/lib/util/Json.cpp:208-291 | every well-formed value within the depth limit is skipped to its end |
| `JsonGrammar.ListAccepts` | src/lib/util/Json.cpp:258-288 | and every member list |
| `JsonGrammar.ValueHere` | src/lib/util/Json.cpp:208-235 | a skipped value has a well-formed tree within the limit |
| `JsonGrammar.ListHere` | src/lib/util/Json.cpp:258-288 | and a skipped member list |
| `JsonLookup.ValueTooDeep` | src/lib/util/Json.cpp:245-247 | a well-formed value beyond the depth limit is refused |
| `JsonLookup.FindJsonMemberValue` | src/lib/util/Json.cpp:296-347 | the member search |
| `JsonLookup.FindJsonPathValue` | src/lib/util/Json.cpp:350-365 | the path search |
| `JsonLookup.ExtractJsonStringPath` | src/lib/util/Json.cpp:414-425 | the string at the path, or nothing |
| `JsonLookup.ExtractJsonBoolPath` | src/lib/util/Json.cpp:427-434 | the boolean at the path, or nothing |
| `JsonLookup.FindLoopIsLookup` | src/lib/util/Json.cpp:310-344 | on a well-formed object the search is the lookup of the first member with that key in the tree, limited only by the depth of the members before it |
| `JsonLookup.FindPathIsFollow` | src/lib/util/Json.cpp:350-365 | on a well-formed document the path search is the walk down the tree |
| `JsonLookup.ExtractStringIsLookup` | src/lib/util/Json.cpp:414-425 | the extracted string is the one the path leads to in the tree, and nothing when it leads to none |
| `JsonLookup.ExtractBoolIsLookup` | src/lib/util/Json.cpp:369-382 | only the whole words true and false are booleans |
| `JsonDescriptor.BuildDescriptor` | src/cli/main.cpp:427-447 | the appends print the object of the given options |
| `JsonDescriptor.AppendOption` | src/cli/main.cpp:429-446 | one option is appended when it is not empty |
| `JsonDescriptor.ObjectReadsBack` | src/lib/util/Json.cpp:406-425 | a printed flat object gives back the first value under each name, for arbitrary octets as names and values |
| `JsonDescriptor.DescriptorReadsBack` | src/cli/main.cpp:427-447 | every key of the descriptor reads as the option says and every other key as absent, so no value can change which member is found |
| `Sha1.ProcessBlock` | src/lib/core/KeyParsers.cpp:225-274 | the schedule array and the 80 rounds compute the block function of sections 4.1.1 and 6.1.2 of FIPS 180-4 |
| `Sha1.RoundWord` | src/lib/core/KeyParsers.cpp:244-258 | the inclusive-or forms of the round functions are the exclusive-or forms of section 4.1.1 of FIPS 180-4 |
| `Sha1.ExpandBlock` | src/lib/core/KeyParsers.cpp:226-237 | the array holds the message schedule |
| `Sha1.ScheduleBit` | src/lib/core/KeyParsers.cpp:234-236 | from the seventeenth word on, each bit is the parity of the bits one place to the right, around the word, of the words 3, 8, 14 and 16 before |
| `Sha1Answer.AbcDigest` | src/lib/core/KeyParsers.cpp:217-309 | the digest of the message abc is the one FIPS 180 publishes |
| `Sha1Answer.Rounds80` | src/lib/core/KeyParsers.cpp:238-268 | the state after all rounds on its block, reached in steps of four rounds |
| `Sha1Answer.Words72` | src/lib/core/KeyParsers.cpp:234-236 | the last eight words of its schedule, reached in steps of eight words |
| `Sha1.WholeBlocks` | src/lib/core/KeyParsers.cpp:276-279 | the full-block loop is the fold over the whole blocks |
| `Sha1.MakeTail` | src/lib/core/KeyParsers.cpp:281-294 | the tail buffer is the last one or two blocks of the padded message |
| `Sha1.Sha1Digest` | src/lib/core/KeyParsers.cpp:217-309 | the digest is the fold of the block function over the padded message of section 5.1.1 of FIPS 180-4, for every message |
| `Sha1.PaddedSplits` | src/lib/core/KeyParsers.cpp:276-294 | whole blocks and tail make up the padded message |
| `Sha1.LengthFieldIsExact` | src/lib/core/KeyParsers.cpp:288-294 | below 2^61 octets the length field is the bit length |
| `Sha1.ZerosAreLeast` | src/lib/core/KeyParsers.cpp:289-291 | the number of padding zeros is the least that ends a block with the length field |
| `JavaUtf.DecodeJavaModifiedUtf8` | src/lib/core/KeyParsers.cpp:130-191 | the loop computes the decoding, or fails |
| `JavaUtf.WrittenIsRead` | src/lib/core/KeyParsers.cpp:130-191 | every UTF-16 sequence written in modified UTF-8 is read back |
| `JavaUtf.ReadIsWritten` | src/lib/core/KeyParsers.cpp:130-191 | nothing else is accepted: each string has one form |
| `JksAlias.NormalizeJksAlias` | src/lib/core/KeyParsers.cpp:334-372 | the two in-place loops compute the normalised alias |
| `JksAlias.NormalizeKeepsSomething` | src/lib/core/KeyParsers.cpp:642-643 | an alias that is asked for never normalises to no alias |
| `JksAlias.NormalizeIsLower` | src/lib/core/KeyParsers.cpp:334-364 | on UTF-8 aliases normalising is lower-casing every unit, and is idempotent |
| `JksAlias.SameAliasIff` | src/lib/core/KeyParsers.cpp:334-364 | two UTF-8 aliases are taken for the same exactly when they differ only in the case of Latin, Ukrainian and Russian letters |
| `JksAlias.SameOctetsIff` | src/lib/core/KeyParsers.cpp:366-371 | two aliases that are not UTF-8 exactly when they differ only in the case of Latin letters |
| `JksProtector.ToJksPasswordBytes` | src/lib/core/KeyParsers.cpp:315-332 | the password as big-endian UTF-16, or failure |
| `JksProtector.MakeKeyStream` | src/lib/core/KeyParsers.cpp:475-489 | the loop gives the chained digests, cut to length |
| `JksProtector.XorWith` | src/lib/core/KeyParsers.cpp:491-494 | the octet-wise exclusive or |
| `JksProtector.ExtractJksEncryptedPayload` | src/lib/core/KeyParsers.cpp:405-446 | the encrypted payload of an EncryptedPrivateKeyInfo under the protector's OID, or failure |
| `JksProtector.RecoverJksPrivateKey` | src/lib/core/KeyParsers.cpp:448-506 | the recovered key, or failure |
| `JksProtector.ProtectedIsRecovered` | src/lib/core/KeyParsers.cpp:448-506 | a key protected under any salt and parameters is recovered with its password |
| `JksProtector.RecoveredIsIntact` | src/lib/core/KeyParsers.cpp:491-505 | whatever is recovered, protecting it again under the stored salt gives the stored payload: nothing else is ever returned |
| `JksProtector.PayloadOfKeyInfo` | src/lib/core/KeyParsers.cpp:405-446 | a written EncryptedPrivateKeyInfo gives its payload exactly under the protector's OID and with nothing after it |
| `JksKeys.RecoveredIff` | src/lib/core/KeyParsers.cpp:448-506 | a key is recovered exactly when it is, bit by bit, the exclusive or of the middle of the payload and the chained digests from the salt, and the payload ends in the digest of the password and the key |
| `JksKeys.NotRecovered` | src/lib/core/KeyParsers.cpp:452-471 | nothing is recovered without a password, from a password that is not UTF-8, or from a payload shorter than salt and digest |
| `JksKeys.StreamIsChained` | src/lib/core/KeyParsers.cpp:475-489 | each block of the stream is the digest of the password and the block before it, the first of the password and the salt |
| `JksKeys.ChainedIsStream` | src/lib/core/KeyParsers.cpp:475-489 | and no other stream is |
| `JksKeys.PasswordIsUnits` | src/lib/core/KeyParsers.cpp:315-332 | the password octets are its UTF-16 units, high octet first |
| `JksKeys.XorIs` | src/lib/core/KeyParsers.cpp:491-494 | the exclusive or is the octet whose bits differ where the other has ones, and only that octet |
| `JksStore.ReadNumber` | src/lib/core/KeyParsers.cpp:57-104 | the big-endian number when it lies within the limit, and failure otherwise |
| `JksStore.ReadBytes` | src/lib/core/KeyParsers.cpp:106-121 | the octets when they lie within the limit, and failure otherwise |
| `JksStore.ReadModifiedUtf8` | src/lib/core/KeyParsers.cpp:193-210 | a length-prefixed string as UTF-8, or failure |
| `JksStore.ReadCertificate` | src/lib/core/KeyParsers.cpp:713-733 | a certificate, after its type from version 2 on |
| `JksStore.ReadChain` | src/lib/core/KeyParsers.cpp:711-734 | the certificates in order, or failure at the first bad one |
| `JksStore.ReadPrivate` | src/lib/core/KeyParsers.cpp:671-734 | a private entry; the count guard is exact in unbounded arithmetic |
| `JksStore.ReadEntry` | src/lib/core/KeyParsers.cpp:652-775 | one entry of either kind, or failure |
| `JksStore.ReadEntries` | src/lib/core/KeyParsers.cpp:642-775 | the entry loop: cursor and selection variables |
| `JksStore.VerifyJksIntegrity` | src/lib/core/KeyParsers.cpp:374-403 | true exactly when no password is given, or the twenty octets after the body are the digest of the password in UTF-16, the whitener and the body |
| `JksRoundTrip.IntactIsSigned` | src/lib/core/KeyParsers.cpp:374-403 | the check passes exactly when no password is given or the trailer is the digest of the password in UTF-16, the sixteen octets of the whitener and the body |
| `JksRoundTrip.OpenedIsSigned` | src/lib/core/KeyParsers.cpp:374-403 | on every input: whatever is opened under a password ends in the digest of that password and all octets before |
| `JksRoundTrip.LoadedIsSigned` | src/lib/core/KeyParsers.cpp:610-806 | so does whatever is loaded |
| `JksStore.SelectEntry` | src/lib/core/KeyParsers.cpp:610-795 | the selected entry of a well-formed, intact store, or failure |
| `JksStore.LoadPrivateKeyEntry` | src/lib/core/KeyParsers.cpp:610-806 | the loaded entry, or failure |
| `JksStore.SelectedIsSmall` | src/lib/core/KeyParsers.cpp:736-746 | what is selected is part of the input |
| `JksRoundTrip.StoredKeyIsLoaded` | src/lib/core/KeyParsers.cpp:610-806 | every store in layout 1 or 2 whose strings have their surrogates paired, with any other entries: the entry asked for comes back with its key, alias, chain and the first certificate of the chain under the right passwords |
| `JksRoundTrip.StoreIsReadIff` | src/lib/core/KeyParsers.cpp:204-207 | the entries are read exactly when every written string has its surrogates paired; otherwise the whole store is refused, whichever key is asked for |
| `JksRoundTrip.UnpairedAliasRefused` | src/lib/core/KeyParsers.cpp:204-207 | a store that is refused for its alias |
| `JksRoundTrip.StoreSelects` | src/lib/core/KeyParsers.cpp:610-795 | without an alias the first private entry that is not empty is selected, otherwise the last with an equal normalised alias if it is not empty |
| `JksRoundTrip.AskedMeans` | src/lib/core/KeyParsers.cpp:642-643 | an alias asks for a private entry exactly when it differs from the entry's in the case of letters only |
| `JksRoundTrip.SelectsChosen` | src/lib/core/KeyParsers.cpp:736-747 | the loop's variables end as the entry that this rule names |
| `JksRoundTrip.SelectsNothing` | src/lib/core/KeyParsers.cpp:736-747 | no matching private entry: nothing is selected |
| `JksRoundTrip.NothingChosen` | src/lib/core/KeyParsers.cpp:736-747 | when the rule names no entry, no key is selected |
| `JksRoundTrip.UnchosenFails` | src/lib/core/KeyParsers.cpp:780-795 | then the store is refused: an alias that no private entry has, or has last with an empty body, is never answered with another key |
| `JksRoundTrip.StoreSelectsIff` | src/lib/core/KeyParsers.cpp:610-795 | from a written store with any trailer and under any password a key is selected exactly when the trailer belongs to the store under that password, all strings are paired and the rule names an entry |
| `JksRoundTrip.HeaderReads` | src/lib/core/KeyParsers.cpp:623-640 | only layouts 1 and 2 are read |
| `JksInverse.AcceptedIsWritten` | src/lib/core/KeyParsers.cpp:610-795 | on every input: an accepted file is the magic, a layout 1 or 2 header, written entries in order up to the trailer, and a trailer that belongs to them, and what is selected is the entry that the rule names among those |
| `JksInverse.EntriesHere` | src/lib/core/KeyParsers.cpp:651-775 | entries that are read are written entries, in order and without gap |
| `JksInverse.EntryHere` | src/lib/core/KeyParsers.cpp:652-775 | an entry that is read is a written entry |
| `JksRoundTrip.CountIsFine` | src/lib/core/KeyParsers.cpp:703-709 | the certificate-count guard refuses no chain in layout 2 and no chain of non-empty certificates in layout 1 |
| `JksRoundTrip.CountIsRefused` | src/lib/core/KeyParsers.cpp:703-709 | a count for which five octets each are not left is refused |
| `JksRoundTrip.ItemsRead` | src/lib/core/KeyParsers.cpp:651-775 | written entries are read back, in order and to the end |
| `JksRoundTrip.ItemsUnread` | src/lib/core/KeyParsers.cpp:651-775 | one entry that is refused stops the reading of all |
| `JksRoundTrip.ItemReads` | src/lib/core/KeyParsers.cpp:652-775 | one written entry is read back exactly when its strings are paired, and refused otherwise |
| `JksRoundTrip.StringReads` | src/lib/core/KeyParsers.cpp:193-210 | one written string is read back as UTF-8 exactly when its surrogates are paired, and refused otherwise |
| `Base64.Base64Encode` | src/lib/util/Base64.cpp:21-38 | the group loop |
| `Base64.Base64Decode` | src/lib/util/Base64.cpp:40-83 | the stripping and group loops |
| `Base64.RoundTrip` | src/lib/util/Base64.cpp:21-83 | decoding undoes encoding for every octet string (section 4 of RFC 4648) |
| `Base64.WrappedReadsBack` | src/lib/util/Base64.cpp:41-48 | with white space inserted anywhere |
| `Base64.DecodedIsCanonical` | src/lib/util/Base64.cpp:50-80 | an accepted text is the encoding of what it decodes to exactly when only its last group is padded, at its end, with zero unused bits |
| `Base64.LooseTextAccepted` | src/lib/util/Base64.cpp:63-77 | a text that is not canonical and is accepted |
| `Pem.LoadAll` | src/lib/core/KeyParsers.cpp:532-608 | the block loop, the DER shortcut and strict mode |
| `Pem.ReadBlock` | src/lib/core/KeyParsers.cpp:548-590 | one turn: no block left, a broken one, or a block and the offset after it |
| `Pem.KeepBase64` | src/lib/core/KeyParsers.cpp:569-576 | the Base64 characters of a body |
| `Pem.FileLoads` | src/lib/core/KeyParsers.cpp:532-608 | a file of blocks with non-empty contents, under labels without five dashes, wrapped and spaced in any way, with any text around them in which no block begins, loads as exactly those blocks; in strict mode exactly when each is a SEQUENCE |
| `PemInverse.LoadedIff` | src/lib/core/KeyParsers.cpp:532-608 | exactly the inputs that load, and as what: a DER element as it is, or a text in which no block begins followed by written blocks, in strict mode all sequences |
| `PemInverse.TextHere` | src/lib/core/KeyParsers.cpp:547-591 | an accepted text is such a text |
| `PemInverse.BlockHere` | src/lib/core/KeyParsers.cpp:548-590 | a block that is found is a written block, and none begins before it |
| `Pem.TextsRead` | src/lib/core/KeyParsers.cpp:547-591 | the same from any offset on |
| `Pem.EntryReads` | src/lib/core/KeyParsers.cpp:548-590 | one printed block is found and read |
| `Pem.WrappedEntryOk` | src/lib/core/KeyParsers.cpp:569-576 | any wrapping of the Base64 text by white space is such a body |
| `Pem.SpacedDashes` | src/lib/core/KeyParsers.cpp:554-560 | a label may hold single dashes |
| `Zs2.OidEquals` | src/lib/core/KeyParsers.cpp:1022-1027 | the element is that object identifier |
| `Zs2.ParseDataContentInfo` | src/lib/core/KeyParsers.cpp:1031-1059 | the nested elements of a data ContentInfo, or failure |
| `Zs2.ParseKdf` | src/lib/core/KeyParsers.cpp:1083-1126 | salt and iteration count under PBKDF2 with the KMAC, or failure |
| `Zs2.ParseScheme` | src/lib/core/KeyParsers.cpp:1128-1148 | the IV under Kalyna, or failure |
| `Zs2.ParseZs2Encryption` | src/lib/core/KeyParsers.cpp:1063-1166 | the nested elements of the PBES2 parameters (section 6.2 of RFC 8018), or failure |
| `Zs2.ReadCount` | src/lib/core/KeyParsers.cpp:1109-1112 | the exact count |
| `Zs2.ParseBag` | src/lib/core/KeyParsers.cpp:1218-1246 | one bag: malformed, passed over, or the one sought |
| `Zs2.SearchBags` | src/lib/core/KeyParsers.cpp:1217-1247 | the bag loop; ends on every input |
| `Zs2.SearchSafes` | src/lib/core/KeyParsers.cpp:1198-1248 | the safe loop; ends on every input |
| `Zs2.ParseZs2FirstBag` | src/lib/core/KeyParsers.cpp:1170-1250 | the bag found by the walk (section 4 of RFC 7292), or nothing |
| `Zs2.EncryptionNests` | src/lib/core/KeyParsers.cpp:1063-1166 | on every input: each element lies in its parent, the sizes are right |
| `Zs2.FoundIsContained` | src/lib/core/KeyParsers.cpp:1170-1250 | on every input: twelve nested elements lead to the slices copied out, each inside all before it; a 32-octet IV, whole non-empty ciphertext blocks, a count from 1 to 2^32-1 |
| `Zs2.BagsBeforeHit` | src/lib/core/KeyParsers.cpp:1217-1247 | on every input: every bag before the one found is well-formed and is not shrouded or not under the sought algorithms, and they follow one another without gap |
| `Zs2.AllBagsPassed` | src/lib/core/KeyParsers.cpp:1217-1247 | on every input: when a safe has none, that holds for all its bags |
| `Zs2.SafesBeforeHit` | src/lib/core/KeyParsers.cpp:1198-1248 | on every input: every safe before the hit was read and had none |
| `Zs2Local.DecisionIsLocal` | src/lib/core/KeyParsers.cpp:1063-1166 | whether an encrypted key is taken, and what comes out of it, depends on its own octets only, wherever it stands |
| `Zs2Keys.KeyIsTaken` | src/lib/core/KeyParsers.cpp:1063-1166 | a written key under any algorithms, fields and sizes is taken exactly when it has PBES2, PBKDF2 with the KMAC as PRF and no key length, a non-zero count of at most four octets, Kalyna with a whole block of IV, and whole blocks of ciphertext; what is taken comes out as written |
| `Zs2RoundTrip.FirstBagIsFound` | src/lib/core/KeyParsers.cpp:1170-1250 | a written container with arbitrary bags, encrypted keys and safes gives the contents of the first key that can be taken, when only data safes come before it |
| `Zs2RoundTrip.FoundIff` | src/lib/core/KeyParsers.cpp:1170-1250 | a key is found exactly when some safe has one that can be taken and every safe up to it is of type data |
| `Zs2RoundTrip.EncryptedSafeHidesKeys` | src/lib/core/KeyParsers.cpp:1199-1206 | behind a safe of another type no key is found |
| `Zs2RoundTrip.HiddenKey` | src/lib/core/KeyParsers.cpp:1199-1206 | the same container with and without an encrypted safe in front |
| `Zs2RoundTrip.SafesRead` | src/lib/core/KeyParsers.cpp:1198-1248 | the walk over written safes gives the first key of the first safe that has one |
| `Zs2RoundTrip.BagsRead` | src/lib/core/KeyParsers.cpp:1217-1247 | the walk over written bags gives the first key that can be taken, or nothing when there is none |
| `AtomicFiles.TargetIsAlwaysWhole` | src/lib/util/FileSystem.cpp:63-117 | in every reachable state of any interleaving with failures, crashes and reused process identifiers, the target is as at first or the complete data of the call that replaced it last, which reported success |
| `AtomicFiles.FailureLeavesTarget` | src/lib/util/FileSystem.cpp:63-117 | a call that does not report success changed the target at none of its steps |
| `AtomicFiles.LeftoversAreExplained` | src/lib/util/FileSystem.cpp:90-115 | when all calls of a run are over, every new file besides the target is the temporary file of a call that crashed or of one that failed and could not remove it |
| `AtomicFiles.RunStaysTidy` | src/lib/util/FileSystem.cpp:63-117 | in every reachable state, every new file besides the target is the temporary file of a call that is at work or left it behind |
| `AtomicFiles.OtherPathsStay` | src/lib/util/FileSystem.cpp:63-117 | paths that are neither the target nor a temporary name are never touched |
| `AtomicFiles.InvStays` | src/lib/util/FileSystem.cpp:63-117 | every step keeps the invariant |
| `AtomicFiles.RunKeepsInv` | src/lib/util/FileSystem.cpp:63-117 | so does every run |
| `AtomicFiles.OnlyRenameReplaces` | src/lib/util/FileSystem.cpp:95-115 | only the renaming step changes the target, and it puts the whole data there |
| `AtomicFiles.TempNamesDiffer` | src/lib/util/FileSystem.cpp:49-59 | temporary names of different (process, serial) pairs differ, and none is the target |
| `AtomicFiles.LiveTempsDiffer` | src/lib/util/FileSystem.cpp:49-59 | calls that are under way never share a temporary file |
| `AtomicFiles.Disk.WriteBytesAtomic` | src/lib/util/FileSystem.cpp:63-117 | each path through the call is a run of the protocol; it reports success exactly when every step succeeded, and then the target is the data, and an unusable target exactly when path, directory or temporary file failed; otherwise the target is untouched; the temporary file is gone unless its removal failed, and no other path changes |
| `AtomicFiles.Disk.Finish` | src/lib/util/FileSystem.cpp:87-116 | the same from the write on: with a successful removal a failed call leaves no temporary file |
| `HexDecimal.HexToDecimal` | src/lib/xades/XadesBuilder.cpp:53-78 | the canonical decimal numeral of exactly the number the hex digits denote, for strings of any length |
| `HexDecimal.LeadingHexDigit` | src/lib/xades/XadesBuilder.cpp:56-63 | that number: the leading digit counts for sixteen to the number of digits after it |
| `HexDecimal.OthersPassedOver` | src/lib/xades/XadesBuilder.cpp:62 | a character that is no digit is passed over, wherever it stands |
| `HexDecimal.Shift` | src/lib/xades/XadesBuilder.cpp:63-72 | one in-place pass is multiplication by sixteen plus the digit; no product exceeds 159 |
| `HexDecimal.TimesValue` | src/lib/xades/XadesBuilder.cpp:63-72 | the value of the vector after a pass |
| `HexDecimal.TimesCanonical` | src/lib/xades/XadesBuilder.cpp:63-72 | no superfluous leading zero ever appears |
| `HexDecimal.TextIsNumeral` | src/lib/xades/XadesBuilder.cpp:74-77 | the reversed digits are the numeral std::to_string would give |
| `XmlWalk.ForEachElement` | src/lib/xml/XmlCore.h:196-217 | the stack loop gives the recursive document order; the work left decreases |
| `XmlWalk.PushChildren` | src/lib/xml/XmlCore.h:207-212 | the element children in order |
| `XmlWalk.TurnOrder` | src/lib/xml/XmlCore.h:201-216 | one turn visits the top node and leaves the rest of the order |
| `XmlWalk.TurnWork` | src/lib/xml/XmlCore.h:201-216 | one turn leaves less work |
| `XmlWalk.WalkIsDocumentOrder` | src/lib/xml/XmlCore.h:189-217 | exactly the elements reached through elements are visited, each once, ancestors first and siblings in order |

## Left out

- cryptonite, CNG, qpdf, libxml2, xmlsec and miniz: libraries outside the repository; where their results matter they are arbitrary functions.
- Building the object graph with qpdf: the printed bodies of Catalog, form, widget and store are arbitrary functions of the keys and names that go into them; entries of a security store that the document already has are part of what such a function prints.
- HttpClient, TspClient, the diagnostic tools, the NativeAPI add-in, the C interface and command dispatch.
- XMLDSIG and XAdES signing and verification, ASiC containers, policy and trust lists.
- Page fingerprints: the page comparison is one of three results.
- Error message texts, the current time, PDF dates and the wiping of secrets.
- ParseIitContainer, DeriveIitKey, DeriveZs2Key and the decryption of containers: the layout of the IIT container, the iterated hashing of both key derivations and the block ciphers are not modelled.
- ReadLimited: the size limit on files that are read is not modelled.
- PemDerLoader::Load and JSON extraction by a single key: the first match among the modelled results.
- Utf.Utf16ToWide: with 2-byte wide characters the source copies; only the 4-byte form is modelled.
- Utf.WideToUtf16: the same.
- FieldNames.UniqueFieldName: for sets of 2^32-2 names and more the source's 32-bit suffix could wrap, which is not modelled.
- FieldNames.StoredNameIsNewIff: the printing of text strings is qpdf's; that exactly plain text is stored as itself is assumed of it.
- AtomicFiles.TargetIsAlwaysWhole: serial counters are unbounded, where the source has 64 bits; renaming is atomic, and processes that run at the same time have different identifiers, as the operating system promises.
- AtomicFiles.Disk.WriteBytesAtomic: one call without interference; interference is in the state machine. A null pointer with a positive size is not represented: the source then writes nothing and reports success, as for no data.
- PadesBuilder.SignPdf: new object numbers are greater than the Catalog's, as qpdf allocates them.
- PadesTheorems.TrailersChain: from the second revision on, for files below 2^64 bytes, as the source's own number reader requires.
- PadesVerifier.VerdictOnRun: the notes and the cryptographic part of the verdict are not modelled.
- JsonGrammar.SkipIsExact: 32-bit address spaces, where an offset near the end of memory could wrap, are not modelled.
- JksRoundTrip.StoredKeyIsLoaded: entries must fit the format's own 32-bit lengths; in layout 1 the certificates of a chain are not empty, since the count guard may refuse a chain of empty ones.
- Pem.LoadAll: blocks that were added before a failure are not part of the result.
- Zs2RoundTrip.FirstBagIsFound: for containers that fit the address space of the platform.
