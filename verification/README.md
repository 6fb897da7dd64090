# A verified model of despotify's core

despotify is a C library (with a Java twin of some parts) that talks to a music service. This project
models the parts of it that carry real invariants and proves what they promise, in Dafny 4.11;
`dafny verify dfyconfig.toml` checks everything.

| file | what it models |
|---|---|
| `Words.dfy` | machine words, bytes, and overwritten stretches of buffers |
| `Shannon.dfy`, `ShannonMac.dfy` | the Shannon stream cipher with its MAC, and what the MAC can tell apart |
| `Packet.dfy`, `PacketNonce.dfy`, `ByteCounter.dfy` | the packet layer on top of it, the nonces of a session, and bytes as a number in base 256 |
| `AesSpec.dfy`, `Aes.dfy`, `AesStandard.dfy`, `Ctr.dfy` | AES as FIPS 197 defines it, the table code with its key schedules, the standard's S-box and examples, and the CTR streaming with de-interleaving and seek |
| `Sha1Spec.dfy`, `Sha1.dfy`, `Sha1Standard.dfy`, `Hmac.dfy` | SHA-1 as FIPS 180-4 defines it, the streaming code, the standard's example and padding, and HMAC |
| `SndQueue.dfy`, `SndCalls.dfy`, `SndTracks.dfy`, `SndRuns.dfy`, `LateStop.dfy` | the sound queue and the download controller, as a machine shared by three threads; whole consume calls; what is asked for of each track; sessions in which the code fails; stops that other threads overtake |
| `Channel.dfy` | the channel registry and the framing of channel packets |
| `BaseConvert.dfy` | the radix conversion between hexadecimal ids and base-62 URIs, in C and in Java |
| `MergeSort.dfy`, `TrackSort.dfy` | the bottom-up merge sort, on sequences and on linked nodes, and the comparison of tracks |
| `Utf8.dfy`, `XmlText.dfy`, `XmlRefs.dfy`, `XmlLoops.dfy` | ezxml: UTF-16 conversion, entity encoding and decoding, what each kind of reference becomes, and when decoding ends |
| `XmlParse.dfy`, `XmlSource.dfy`, `XmlOrder.dfy` | ezxml: what parsing and printing mean, that they are inverse, what is read from documents in any form, and the order of what is parsed |
| `XmlTree.dfy`, `XmlBuild.dfy`, `XmlPrint.dfy` | ezxml: the three child lists of a tag, and the parser and the printer that work on them |

Code that changes things step by step is modelled by methods and classes that change arrays, fields and linked
nodes; each is proved against a function or an abstract step, and the lemmas speak about those. A long seen as a
sequence of bits is an unbounded natural number in `Utf8.dfy` and `BaseConvert.dfy`; elsewhere wrap-around is
modelled where it can happen (bit vectors for ciphers and hashes, `Wrap` for the comparison of tracks, counters
modulo 2^32).

Where the code does not keep what it seems to promise, the code is kept and the exact condition is proved:

- `TrackSort.NumbersExactly`, `NamesExactly` and `DifferencesCanCycle`: the track comparison is the intended order
  only under conditions on `strcmp` and the track numbers, and otherwise need not be an order at all.
- `Sha1.CountersExactly`: the bit count is lost by some calls of 2^29 bytes or more.
- `CounterMode.SeekExactly`: seeking fails from offset 2^31 on.
- `BaseConvert.UriRoundTrip`: a URI of 2^128 or more does not fit an identifier.
- `XmlText.DecodeUndoesEncode`: vertical tab and form feed in attributes do not survive.
- `XmlLoops.CompletenessExactly` and `AcceptedLoop`: definitions that pass the check can make decoding go round for
  ever; it ends whatever is defined next exactly when values complete the references that they begin. For names with
  a `;` inside, `XmlLoops.InnerSemicolonLoop`: there one definition with a complete value does it.
- `LateStop.OneRequestExactly`, `LateStopOvertaken` and `DrainingReached`: the promise of one request at a time holds
  in exactly the runs in which no request overtakes a stop between its wait and its assignment.
- `SndQueue.ReturnsNothing` and `SndRuns.StoppedWakeUp`: a consume call can return 0 without an END, exactly when it
  is woken with nothing copied and finds the queue empty, as after a stop between a push and the wake-up.
- `SndRuns.ShortAnswerExactly` and `ShortAnswerReached`: a short answer directly behind a START makes the code read
  through a null pointer.
- `SndRuns.NoTrackExactly` and `NoTrackReached`: so does a fill that asks for a substream when there is no current
  track, in a session exactly when the controller drains and is low without one, as behind a stop during a short
  answer to the last track.
- `SndTracks.AdjacentExactly` and `SndRuns.SkippedBeginning`: a track is fetched from its beginning on exactly when no
  request was open when it began; one that is played behind a stop can lose its first 200 KB.
- `SndTracks.PageExactly`: the size taken for the first Ogg page is right exactly when the page has one segment.
- `ChannelRegistry.ErrorSeenExactly` and `EmptyErrorLooksLikeEnd`: the callback of a channel is told of an error
  exactly when the packet with the error flag has bytes behind the id; without them it sees an end, although the code
  speaks of letting it know about the error.

The steps of the sound queue are a whole network callback, one fill, a stop up to its wait and from it on, a skip, and
a stretch of a consume call between two waits; a loop that sleeps while the state is busy is a guard. In `LateStop` the
end of a stop's wait and its assignment are separate steps. A step is enabled only when what the code dereferences is
there: a current track for a request, and a readable buffer for the push behind a START.

## Model

| member | source | states |
|---|---|---|
| `XmlParse.ParsePrinted` | src/lib/ezxml.c:693-781 | Parsing the printed form of any element tree (tag and attribute names as in XML, distinct attribute names, NUL-free text, attribute values also free of VT and FF, children in the order of offsets inside the text) gives the same tree: names, attributes, text, order of the children and the offset of each |
| `XmlParse.ContentSeen` | src/lib/ezxml.c:470-600 | Wherever printed content stands in a document, with any markup behind it, the parser leaves the open element with the whole text and all children added, and goes on at that markup |
| `XmlParse.TreeSeen` | src/lib/ezxml.c:693-738 | A printed element, whatever follows it, becomes the last child of the element that is open, at the offset it was printed with |
| `XmlParse.ChildClosed` | src/lib/ezxml.c:221-264 | Opening a child, filling it and closing it adds exactly that child to its parent, at the offset where the parent's text stood |
| `XmlParse.TagRead` | src/lib/ezxml.c:495-551 | A printed start tag is read back with its name and all attributes, up to its `>`, whatever stands behind |
| `XmlParse.AttrsRead` | src/lib/ezxml.c:501-532 | The loop over attributes reads a printed list of any length back, from any attribute on |
| `XmlParse.AttrRead` | src/lib/ezxml.c:501-532 | One printed attribute is read back with its name and its decoded value, and reading goes on behind it |
| `XmlParse.ContentStep` | src/lib/ezxml.c:586-594 | Text in front of markup is decoded and added to the open element before the markup is looked at; no text adds nothing |
| `XmlParse.TextSeen` | src/lib/ezxml.c:233-254 | Encoded text in front of markup becomes exactly the original text of the open element |
| `XmlParse.StartSeen` | src/lib/ezxml.c:221-230 | A printed start tag opens its element and leaves the content to be read |
| `XmlParse.EndSeen` | src/lib/ezxml.c:553-559 | A printed end tag closes the element of its name and leaves what follows to be read |
| `XmlParse.EndAtEnd` | src/lib/ezxml.c:553-597 | The last end tag closes the root although its `>` was overwritten by the terminator |
| `XmlParse.EncodedChars` | src/lib/ezxml.c:667-688 | Encoded text has no `<`, no `>`, no carriage return and no NUL, encoded attribute values no quote, tab or line feed either, and only empty text is encoded as nothing |
| `XmlParse.TakeTag` | src/lib/ezxml.c:495-551 | A new tag is read as name, attributes, self-closing mark and rest, or refused for a missing quote or `>` |
| `XmlParse.AttributeLoop` | src/lib/ezxml.c:501-532 | The attribute loop collects what the recursive definition reads, in order, or reports a missing quote |
| `XmlParse.TakeValue` | src/lib/ezxml.c:513-530 | A quoted value is decoded as an attribute and taken off; without a quote the value is empty |
| `XmlParse.ScanInst` | src/lib/ezxml.c:579-579 | The loop over question marks ends at the first one in front of `>` or of the end |
| `XmlParse.ScanDecl` | src/lib/ezxml.c:570-572 | The loop over brackets ends at the first `[` or `>`, or at the end |
| `XmlParse.PutAttrs` | src/lib/ezxml.c:707-715 | Appends, in order, every attribute that the lookup by name finds, and leaves out later ones of the same name |
| `XmlParse.FindsItself` | src/lib/ezxml.c:76-88 | The attribute search ends at an attribute exactly when no earlier one has its name |
| `XmlBuild.ParseStr` | src/lib/ezxml.c:470-600 | The parse loop over tags, end tags, comments, cdata sections, processing instructions, document type declarations and text, on tags that hang on linked lists, ends on every string with the answer that the recursive definition gives, errors included; and where that is an element, the root tag presents it: names, attributes, texts, offsets and the children of every tag, with all three lists of every tag in order |
| `XmlBuild.Root.OpenTag` | src/lib/ezxml.c:221-230 | The tag opened is the root, or the last child of the tag at the insertion point, hung at the end of that tag's text, and the insertion point moves to it; nothing else of the document changes |
| `XmlBuild.Root.CharContent` | src/lib/ezxml.c:233-254 | Text is added to the tag at the insertion point, and to nothing else |
| `XmlBuild.Root.CloseTag` | src/lib/ezxml.c:257-264 | The name must be that of the tag at the insertion point, which then moves to its parent, or behind the root; the tag becomes a complete child of its parent |
| `XmlBuild.Root.MainLoop` | src/lib/ezxml.c:491-597 | From the first `<` on, from any state of the document: every turn shortens the text, and the answer and the tags left are those of the definition |
| `XmlBuild.Root.MarkupTurn` | src/lib/ezxml.c:491-584 | One turn either ends with the error that the definition gives, or leaves a shorter text and tags that show the document that the definition goes on with |
| `XmlBuild.Root.TagTurn` | src/lib/ezxml.c:495-551 | A tag behind the root, a malformed one, an opened one, or one that is opened and closed at once |
| `XmlBuild.Root.CloseTurn` | src/lib/ezxml.c:553-559 | An end tag: missing `>`, wrong or unexpected name, or a closed element with white space behind the name skipped |
| `XmlBuild.Root.SectionTurn` | src/lib/ezxml.c:560-568 | Comments are skipped and cdata sections become text undecoded; unclosed ones are errors |
| `XmlBuild.Root.DeclTurn` | src/lib/ezxml.c:569-577 | A document type declaration is skipped up to its end; an unclosed one is an error, and an internal subset is not modelled |
| `XmlBuild.Root.InstTurn` | src/lib/ezxml.c:578-583 | A processing instruction is skipped up to a question mark in front of `>`; an unclosed one is an error |
| `XmlBuild.Root.ContentTurn` | src/lib/ezxml.c:586-594 | The text up to the next markup is decoded into the open tag, and not looked at when there is no markup behind it |
| `XmlBuild.Root.Finish` | src/lib/ezxml.c:596-600 | The answer behind the loop: done when the root is closed, and then the root tag presents the document; else the error for a missing root or an unclosed tag |
| `XmlBuild.RootPresents` | src/lib/ezxml.c:470-600 | When no tag is open, every tag presents what was collected of it, at every depth |
| `XmlBuild.OpenedShown` | src/lib/ezxml.c:221-230 | Opening a tag keeps what all tags show, and the new one shows its name and attributes |
| `XmlBuild.FilledShown` | src/lib/ezxml.c:233-254 | So does text added to the last open tag, because that tag is nobody's finished child |
| `XmlBuild.ClosedShown` | src/lib/ezxml.c:257-264 | Closing the last open tag makes it one of the children that its parent shows, and keeps what the others show |
| `XmlBuild.OpenNotKnown` | src/lib/ezxml.c:221-264 | An open tag is never among the finished children of any tag |
| `XmlPrint.ToXml` | src/lib/ezxml.c:745-781 | Walking the linked lists of a tag prints the element it presents, without the text and the siblings around it: exactly the recursive form that parsing inverts |
| `XmlPrint.ToXmlR` | src/lib/ezxml.c:693-738 | The recursion over `child` and `ordered`, with the running offset into the text of `parent`, appends the interleaving of text and children from that child on |
| `XmlPrint.PutElement` | src/lib/ezxml.c:706-736 | Appends start tag, content (children, or text when there are none) and end tag |
| `XmlPrint.PrintAndParse` | src/lib/ezxml.c:470-781 | Printing a root tag and parsing what is printed gives, on new tags, the same element, with its lists in order |
| `XmlPrint.InnerFrom` | src/lib/ezxml.c:700-740 | From any child on, the content is the text before it, the child, and the content behind it |
| `XmlText.DecodeUndoesEncode` | src/lib/ezxml.c:667-688 | Decoding with the default entities undoes encoding once, without double decoding, for exactly the texts without NUL and, in attributes, without VT and FF |
| `XmlText.DecodedBack` | src/lib/ezxml.c:158-218 | For every text whatever: decoding its encoding gives the text up to its NUL, in attributes with spaces for VT and FF |
| `XmlText.CharBack` | src/lib/ezxml.c:667-688 | Decoding the encoding of one character in front of any text gives the character and goes on with that text |
| `XmlText.NamedTurn` | src/lib/ezxml.c:189-205 | A reference to a default entity is replaced by the value, which is then decoded in its turn |
| `XmlText.DecimalRef` | src/lib/ezxml.c:174-188 | `&#` with two decimal digits and `;` is a character reference with that number, whatever follows |
| `XmlText.HexRef` | src/lib/ezxml.c:174-188 | `&#x` with one hexadecimal digit and `;` is a character reference with that digit |
| `XmlText.LinesOfEncoded` | src/lib/ezxml.c:163-168 | Normalising line ends changes nothing in an encoded text |
| `XmlText.Decode` | src/lib/ezxml.c:158-218 | The in-place decoder, both loops, computes the recursive meaning for any text, any admissible table and the three modes, and ends |
| `XmlText.DecodeLoop` | src/lib/ezxml.c:170-208 | The second loop, which rewrites the string in place and rescans replacement text, ends for every text and gives its full expansion |
| `XmlText.NormalizeLines` | src/lib/ezxml.c:163-168 | CR LF and CR become LF, everywhere and nothing else |
| `XmlText.TakeTurn` | src/lib/ezxml.c:174-207 | One place of the string is rewritten as the rules for character references, entities and white space say, and the rest is kept |
| `XmlText.StepsExpand` | src/lib/ezxml.c:189-203 | The termination measure: with an acyclic table whose values complete their references, a text weighs more than what it becomes when a reference in front is replaced by its value |
| `XmlText.TurnShrinks` | src/lib/ezxml.c:170-208 | Every turn of the decoder lowers that measure, so that decoding ends on any text |
| `XmlText.WeightConcat` | src/lib/ezxml.c:189-203 | The measure adds up over a value and the text behind it, because the value completes its references itself |
| `XmlText.EntOk` | src/lib/ezxml.c:268-279 | The recursive check ends on every acyclic table and answers whether no expansion of the text refers to the name |
| `XmlText.CheckIsExact` | src/lib/ezxml.c:268-279 | A new name passes the check if and only if the table with the new definition is free of circular definitions |
| `XmlText.DefinitionKeeps` | src/lib/ezxml.c:341-355 | A definition that passes the check keeps the table acyclic, also when the name is defined already |
| `XmlText.ReachedClosed` | src/lib/ezxml.c:268-279 | What is reached through an entry that a text reaches is reached by the text |
| `XmlText.ReachedAvoids` | src/lib/ezxml.c:268-279 | If the expansions of a text avoid a name, so do those of every value they reach |
| `XmlText.RankAvoids` | src/lib/ezxml.c:268-279 | In a table that stays acyclic with a new name defined, every text ranked below that name avoids it |
| `XmlText.Define` | src/lib/ezxml.c:341-355 | Enters a definition at the end of the table when the check passes and else leaves the table; the table stays free of circular definitions, and a new name is refused only when it would not. If the value completes the references that it begins, which the code does not check, the table also stays one on which decoding ends |
| `XmlText.DefaultsOk` | src/lib/ezxml.c:836-837 | The five default entities form an admissible, acyclic table |
| `XmlText.AmpEncode` | src/lib/ezxml.c:667-688 | The encoding loop appends the encoding of the text up to its NUL |
| `XmlLoops.CompletenessExactly` | src/lib/ezxml.c:268-355 | For a new definition that passes the check: decoding of every text in every mode ends, whatever complete definition passes the check next, if and only if the value completes the references that it begins (or its name begins with `#`, so that it is never looked up) |
| `XmlLoops.AcceptedLoop` | src/lib/ezxml.c:268-355 | `x;` defined as `&y` and then `y;` as `&x;;` both pass the check, and decoding `&x;;` never ends |
| `XmlLoops.CompleteTablesEnd` | src/lib/ezxml.c:170-208 | With an acyclic table whose values complete their references, the decoding loop ends on every text |
| `XmlLoops.ClosingLoops` | src/lib/ezxml.c:170-208 | Whatever value leaves a reference open, the definition that closes it and leads back makes a text that the decoding loop comes back to |
| `XmlLoops.Passes` | src/lib/ezxml.c:170-208 | The decoding loop works off a text and all its expansions and comes to the reference behind it, when nothing on the way leads to either of two new names |
| `XmlLoops.FrontKeeps` | src/lib/ezxml.c:189-203 | What one turn leaves of such a text is such a text again |
| `XmlLoops.RefLocal` | src/lib/ezxml.c:174-188 | A character reference, well formed or not, is read the same whatever reference follows it |
| `XmlLoops.InnerSemicolonLoop` | src/lib/ezxml.c:189-203 | One definition is enough when its name has a `;` inside: `x;y;` defined as `&x;` passes the check with a complete value, and decoding `&x;y;`, of which only `&x;` is replaced, never ends |
| `XmlLoops.ClosingAccepted` | src/lib/ezxml.c:268-279 | The closing definition passes the check |
| `XmlText.SemiOfName` | src/lib/ezxml.c:189-203 | Where the reference to a name in which `;` is the last character only is replaced, the first `;` is the end of that name, so that exactly the reference is cut out |
| `XmlOrder.ParsedInOrder` | src/lib/ezxml.c:470-600 | Whatever the document, the children of every element of the result come in the order of their offsets, inside its text |
| `XmlOrder.OpenInOrder` | src/lib/ezxml.c:221-230 | A new element is opened at an offset that no child of its parent is behind |
| `XmlOrder.CloseInOrder` | src/lib/ezxml.c:257-264 | Closing an element keeps what has been read in order |
| `Utf8.Utf16Converted` | src/lib/ezxml.c:422-451 | Every sequence of code points, in UTF-16 of either byte order behind its byte order mark (RFC 2781, section 2), becomes its shortest-form UTF-8 (RFC 3629, section 3) |
| `Utf8.StringConverted` | src/lib/ezxml.c:430-449 | The same from any place of the string on |
| `Utf8.CharBytesAreUtf8` | src/lib/ezxml.c:442-448 | Head and payload bytes written for a code point below 2^21 are its UTF-8 form |
| `Utf8.PayloadLengthIs` | src/lib/ezxml.c:444-445 | The formula `(bits - 2) / 5` gives the number of continuation bytes of the standard |
| `Utf8.HeadIs` | src/lib/ezxml.c:446-446 | The shifted 0xFF joined with the top bits is the lead byte of the standard |
| `Utf8.JoinedIs` | src/lib/ezxml.c:434-438 | The two halves of a surrogate pair join to the code point they encode |
| `Utf8.UnitFound` | src/lib/ezxml.c:431-432 | Two bytes in either order are put together to the 16-bit unit they encode |
| `Utf8.OrAdds` | src/lib/ezxml.c:431-447 | A bitwise or of numbers without a common bit is their sum |
| `Utf8.Str2Utf8` | src/lib/ezxml.c:422-451 | The conversion loop computes this for every byte string, and leaves strings alone that begin with neither byte of a byte order mark |
| `Utf8.PutChar` | src/lib/ezxml.c:441-448 | The bit-counting loop and the payload loop append the bytes of one character |
| `Utf8.NextChar` | src/lib/ezxml.c:430-439 | Takes one unit, or a surrogate pair when a second unit is there, and moves on by what it took |
| `XmlTree.AddChild` | src/lib/ezxml.c:892-904 | In parser order, after any number of insertions all three lists of every tag present its children: the new tag comes last, and no other tag's children, offset, parent, attributes or text change |
| `XmlTree.Insert` | src/lib/ezxml.c:849-888 | With an offset not below any child's, `ordered` becomes the document order with the new tag last, every `next` list the children of one name, and `sibling` the first of each name in order |
| `XmlTree.LinkOrdered` | src/lib/ezxml.c:858-863 | The new tag is hung on the end of the `ordered` list |
| `XmlTree.LinkNext` | src/lib/ezxml.c:871-875 | The new tag is hung on the end of the `next` list of its name |
| `XmlTree.LinkSibling` | src/lib/ezxml.c:876-883 | The first tag of a name is hung on the end of the `sibling` list |
| `XmlTree.Child` | src/lib/ezxml.c:60-65 | The walk along `sibling` finds the first child of the name in document order, or none |
| `XmlTree.Idx` | src/lib/ezxml.c:69-73 | Walking `next` takes as many steps along the children of one name |
| `XmlTree.VGet` | src/lib/ezxml.c:93-103 | A lookup by a path of names and indexes along the lists finds the tag that lookup on the plain child sequences finds, or none |
| `XmlTree.StepsArePlaces` | src/lib/ezxml.c:69-73 | `idx` steps from the first child of a name lead to the child number `idx` of that name, or off the end exactly when there are not as many |
| `XmlTree.PlacesAreAll` | src/lib/ezxml.h:43-54 | The places of a name include every child of that name |
| `XmlTree.PlacesInOrder` | src/lib/ezxml.h:43-54 | The places of a name come in document order |
| `XmlTree.FindKind` | src/lib/ezxml.c:869-870 | The walk along `sibling` finds the first child of the new tag's name |
| `XmlTree.LastOfKind` | src/lib/ezxml.c:872-872 | The walk along `next` ends at the last child of the name |
| `XmlTree.LastSibling` | src/lib/ezxml.c:879-880 | The walk along `sibling` ends at the last child that is the first of its name |
| `Shannon.ChunksAgree` | src/lib/shn.c:327-372 | Encrypting two pieces gives the bytes and the state of encrypting their concatenation |
| `Shannon.DecryptChunksAgree` | src/lib/shn.c:377-421 | The same for decryption |
| `Shannon.DecryptInvertsEncrypt` | src/lib/shn.c:377-421 | Decryption from the same state gives the plaintext back |
| `Shannon.EncryptInvertsDecrypt` | src/lib/shn.c:327-421 | Encrypting what was decrypted gives the received bytes back, whatever they were |
| `Shannon.TagsAgree` | src/lib/shn.c:285-465 | Sender, receiver and an observer that only accumulates the plaintext end with equal tags, however each cut the message |
| `Shannon.NonceForgets` | src/lib/shn.c:236-243 | After a nonce the state depends on the saved register and the nonce alone |
| `Shannon.LoadedSame` | src/lib/shn.c:183-221 | Loading key material overwrites CRC and stream word: only the register counts |
| `Shannon.OneWord` | src/lib/shn.c:347-356 | Four bytes taken one at a time at a word boundary do what the word loop does at once |
| `Shannon.EmptyMessage` | src/lib/shn.c:327-372 | An empty call changes nothing |
| `Shannon.Shn.Encrypt` | src/lib/shn.c:327-372 | In-place encryption of any stretch, across word boundaries, leaves the byte-at-a-time cipher text there, everything else untouched, and the state of having absorbed the plaintext |
| `Shannon.Shn.Decrypt` | src/lib/shn.c:377-421 | In-place decryption of any stretch leaves the plaintext there and the state of having absorbed it |
| `Shannon.Shn.MacOnly` | src/lib/shn.c:285-322 | Accumulating leaves the buffer alone and the state of having absorbed it |
| `Shannon.Shn.Finish` | src/lib/shn.c:427-465 | Writes the tag of the message absorbed so far, cut to the length asked for, and keeps the saved register |
| `Shannon.Shn.Nonce` | src/lib/shn.c:236-243 | The state after a nonce is a function of the saved register and the nonce |
| `Shannon.Shn.Key` | src/lib/shn.c:225-232 | The saved register is a function of the key alone |
| `Shannon.Shn.LoadKey` | src/lib/shn.c:183-221 | Folding in key words, a padded last word and the length, mixing the CRC and diffusing |
| `Shannon.Shn.Cycle` | src/lib/shn.c:74-89 | The in-place shift of the register and the new stream word, as one step of the abstract machine |
| `Shannon.Shn.CrcFunc` | src/lib/shn.c:104-114 | The in-place CRC shift |
| `Shannon.Shn.MacFunc` | src/lib/shn.c:118-122 | A plaintext word enters CRC and stream register |
| `Shannon.Shn.EncryptHead` | src/lib/shn.c:332-345 | The bytes that complete a word begun by an earlier call |
| `Shannon.Shn.EncryptWords` | src/lib/shn.c:347-356 | The loop over whole words agrees with the bytes one at a time |
| `Shannon.Shn.EncryptTail` | src/lib/shn.c:358-371 | The bytes that begin a word and do not complete it |
| `Shannon.Shn.InitState` | src/lib/shn.c:126-136 | The register starts with the Fibonacci numbers |
| `PacketLayer.ReadInvertsWrite` | src/lib/packet.c:22-75 | The reader recovers command, length and payload of one packet, although the writer encrypts header and payload at once, and leaves the next packet's bytes alone |
| `PacketLayer.RunDelivers` | src/lib/packet.c:22-129 | Over any run of writes and reads, the packets returned are the first ones written, unchanged and in order; when all have been received the counters are equal and the wire is empty |
| `PacketLayer.SendKeepsInStep` | src/lib/packet.c:77-129 | A write keeps the two ends in step |
| `PacketLayer.ReceiveKeepsInStep` | src/lib/packet.c:22-75 | A read keeps them in step and takes the oldest packet that is on its way |
| `PacketLayer.ReceiveTakesOldest` | src/lib/packet.c:22-75 | With a packet on the wire a read returns it and removes exactly its bytes |
| `PacketLayer.ReadProgresses` | src/lib/packet.c:22-75 | With packets outstanding, the next read succeeds and leaves one fewer |
| `PacketLayer.LengthRoundTrip` | src/lib/packet.c:46-48 | The length in network byte order is read back |
| `PacketLayer.Session.PacketWrite` | src/lib/packet.c:77-129 | Sends exactly the wire form under the current counter, cut short by a failing socket, and advances the counter as the code does |
| `PacketLayer.Session.PacketRead` | src/lib/packet.c:22-75 | Reads what the definition reads from the incoming bytes: result code, command, length, payload with its tag bytes, the bytes left and the counter |
| `SndQueue.EveryRunIsSafe` | src/lib/sndqueue.c:108-184 | In every interleaving of fills, callbacks, stops, skips and consume calls: at most one request is outstanding and then the state is busy, the byte count is the sum of the queued lengths, and it stays below the maximum when the watermark leaves room for a substream |
| `SndQueue.StepKeeps` | src/lib/despotify.c:277-404 | Every single step of every thread keeps these, together with the bound on what an outstanding request may still bring |
| `SndQueue.RunConserves` | src/lib/sndqueue.c:227-447 | In runs in which no stop and no skip throws unread bytes away, the bytes handed to the decoder followed by those waiting are the bytes pushed, in order, after the first-page drop |
| `SndQueue.StepConserves` | src/lib/sndqueue.c:227-447 | Every step that throws no unread bytes away keeps this |
| `SndQueue.ReturnsNothing` | src/lib/sndqueue.c:312-447 | After any run whose pushes are not empty, a call for a positive number of bytes that returns, returns the last bytes handed over; it returns none exactly when it took an END, or when it was woken with nothing copied and found the queue empty |
| `SndQueue.StepTold` | src/lib/sndqueue.c:320-396 | What a call has copied so far is always the end of what was handed over |
| `SndQueue.ReturnsNothingExactly` | src/lib/sndqueue.c:312-447 | Within one stretch of the loop, from any queue without empty data, a return of nothing means a taken END and the other way round |
| `SndQueue.ConsumedKeeps` | src/lib/sndqueue.c:361-396 | A stretch of the consume loop loses no byte: what it copied and what is left is what was there |
| `SndQueue.ConsumedUpToEnd` | src/lib/sndqueue.c:361-407 | It copies bytes in front of the first END only |
| `SndQueue.ConsumedAll` | src/lib/sndqueue.c:361-396 | It copies as much as was asked for, or all there is in front of the END |
| `SndQueue.ConsumedEnds` | src/lib/sndqueue.c:398-437 | It takes an END only when it has copied nothing in the whole call, and waits only when the queue is empty |
| `SndQueue.EntryUnread` | src/lib/sndqueue.c:274-291 | After a START, a first Ogg page of the special kind is cut off and nothing else; data that was not empty stays so |
| `SndQueue.NextPlayableIs` | src/lib/despotify.c:357-360 | The search ends at the first playable track behind the current one, or at the end |
| `SndQueue.FromStartIs` | src/lib/sndqueue.c:190-204 | A skip drops what is in front of the first START and nothing else |
| `SndQueue.PushKeeps` | src/lib/sndqueue.c:258-309 | A push keeps count and sum equal and adds at most the pushed length |
| `SndQueue.Session.constructor` | src/lib/sndqueue.c:55-81 | The session starts safe, with 1 MB and a watermark of 200 KB |
| `SndQueue.Session.Fill` | src/lib/sndqueue.c:108-142 | A fill takes the abstract step: abort, request in two states, for the current track from the current offset, or draining when full; or tells that the request looks up the file of a track that is not there |
| `SndQueue.Session.BeginStop` | src/lib/sndqueue.c:145-152 | A stop asks for an abort when a download can be going on |
| `SndQueue.Session.StopNow` | src/lib/sndqueue.c:159-184 | After the wait, the queue is emptied, the count cleared, and the state drained |
| `SndQueue.Session.EndStop` | src/lib/despotify.c:477-485 | A stop by the user begins the track anew as well: its offset is 0 |
| `SndQueue.Session.NextTrack` | src/lib/sndqueue.c:186-225 | A skip leaves the queue from its first START on with the count of what is left, and tells whether there is one |
| `SndQueue.Session.Push` | src/lib/sndqueue.c:243-309 | A push takes the abstract step, with END of list, abort and page drop; or tells that the look at the first page reads what is not there, exactly when the abstract step is not defined |
| `SndQueue.Session.MakeEntry` | src/lib/sndqueue.c:264-291 | The entry that is queued, its data moved to the front when a page is dropped |
| `SndQueue.Session.EndChannel` | src/lib/sndqueue.c:229-241 | The end of a channel sets the state back, unless the list has ended |
| `SndQueue.Session.SubstreamData` | src/lib/despotify.c:288-336 | Decrypted data takes the abstract step and is counted |
| `SndQueue.Session.SubstreamEnded` | src/lib/despotify.c:345-378 | The end of an answer takes the abstract step: a short answer queues an END and advances the track; or tells that the push of the END reads through a null pointer |
| `SndQueue.Session.SubstreamFailed` | src/lib/despotify.c:338-343 | A channel error ends the request and leaves the state busy |
| `SndQueue.Session.KeyArrived` | src/lib/despotify.c:241-275 | A key queues a START with a copy of the track |
| `SndQueue.Session.BeginConsume` | src/lib/sndqueue.c:312-317 | A call starts with nothing copied |
| `SndQueue.Session.Consume` | src/lib/sndqueue.c:320-439 | A stretch of the consume loop, up to its return, its wait, or the stop behind an END that was the last entry, takes the abstract step and tells whether it took an END |
| `SndQueue.Session.Wake` | src/lib/sndqueue.c:321-335 | Behind the wait the call goes on, or returns what it has when the queue is still empty |
| `SndQueue.Session.BeginLastStop` | src/lib/sndqueue.c:425-428 | The stop behind the last END asks for an abort like any other |
| `SndQueue.Session.EndLastStop` | src/lib/sndqueue.c:425-447 | After its wait the queue is emptied, and only then the call returns |
| `SndQueue.Session.ConsumeLoop` | src/lib/sndqueue.c:320-439 | The loop computes bytes, queue and outcome of the recursive definition and lowers the count by the buffers it frees |
| `SndRuns.StoppedWakeUp` | src/lib/sndqueue.c:145-184 | A stop between a push and the wake-up of the consumer makes a call return 0, the mark of the end, although no END was queued: a track is played, its first byte read, the next call sleeps, a second byte arrives, and the user stops |
| `SndRuns.ShortAnswerExactly` | src/lib/sndqueue.c:258-276 | In every state that a run reaches with a request outstanding, the end of the answer reads through a null pointer exactly when the answer is short, nothing was pushed since a START, and there is no abort |
| `SndRuns.ShortAnswerReached` | src/lib/sndqueue.c:258-276 | A session comes there: a track is played, its key arrives, and the answer is empty |
| `SndRuns.NoTrackExactly` | src/lib/despotify.c:388-404 | In every state that a run reaches in which a fill need not wait, it reads through a null pointer exactly when it asks for a substream and there is no current track; in a session, which begins with something to play, exactly when the controller is draining and low and has no track |
| `SndRuns.RunRests` | src/lib/despotify.c:345-378 | From the first track played on, over any run: without a current track the controller is draining or at the end of the list, and never filling |
| `SndRuns.NoTrackReached` | src/lib/despotify.c:345-404 | A session comes there: the last track is stopped while its answer is on the way, and the answer is short |
| `SndRuns.ShortStop` | src/lib/despotify.c:345-378 | A stop during the answer to the last track, when that is short, leaves the controller draining without a track |
| `SndCalls.CallStopsAtEnd` | src/lib/sndqueue.c:312-447 | A whole consume call never crosses an END: from its beginning to its return, with any steps of the other threads between its stretches that throw nothing away, it returns the first bytes, up to the first END, of what was queued when it began and what was queued since; if it took no END, as many as were asked for or all of them |
| `SndCalls.RunInCall` | src/lib/sndqueue.c:312-447 | Over such steps, what was there for the call up to its first END is what it has copied and what is still in the queue |
| `SndCalls.StepInCall` | src/lib/sndqueue.c:312-447 | Every single step of every thread keeps this |
| `LateStop.OneRequestExactly` | src/lib/sndqueue.c:108-184 | With the wait and the assignment of every stop as separate steps, and any number of stops at a time: in every run, at most one request is outstanding and then the state is busy, all along, if and only if no stop was overtaken, between the two, by a request that had no answer when the assignment came |
| `LateStop.LateStopOvertaken` | src/lib/sndqueue.c:108-184 | Whenever the controller is draining with a low queue, a stop that waits, a fill, the assignment and another fill make two requests outstanding |
| `LateStop.DrainingReached` | src/lib/sndqueue.c:108-184 | A session comes into such a state |
| `LateStop.MoveKept` | src/lib/sndqueue.c:108-184 | An assignment that was overtaken breaks the promise, and every other move keeps it |
| `AesSpec.DecryptInvertsEncrypt` | src/lib/aes.c:869-1311 | The equivalent inverse cipher with the inverted schedule (FIPS 197, section 5.3.5) undoes the cipher, for every block, schedule, number of rounds and invertible S-box |
| `AesSpec.RoundsMeet` | src/lib/aes.c:1091-1311 | After any number of decryption rounds the state is the encryption state before the last keys, but for a substitution and a row shift |
| `AesSpec.UnmixCol` | src/lib/aes.c:846-865 | InvMixColumns undoes MixColumns |
| `AesSpec.UnmixKeyed` | src/lib/aes.c:846-865 | Unmixing moves past the round key when the key is unmixed too |
| `AesSpec.Unshift` | src/lib/aes.c:1091-1311 | Substitution and row shift are undone together |
| `AesSpec.MixColLinear` | src/lib/aes.c:31-43 | MixColumns is linear |
| `Aes.EncryptThenDecrypt` | src/lib/aes.c:738-1311 | For every 128, 192 or 256-bit key and every block, decrypting with the decryption schedule what was encrypted with the encryption schedule gives the block back |
| `Aes.RijndaelEncrypt` | src/lib/aes.c:869-1089 | The table rounds compute the cipher of FIPS 197 under the round keys in the schedule array |
| `Aes.RijndaelDecrypt` | src/lib/aes.c:1091-1311 | The table rounds compute the equivalent inverse cipher under the round keys in the array |
| `Aes.RijndaelKeySetupEnc` | src/lib/aes.c:738-816 | The schedule array holds the expanded key of FIPS 197, section 5.2; the number of rounds, 0 for other key sizes |
| `Aes.RijndaelKeySetupDec` | src/lib/aes.c:823-867 | The schedule array holds the inverted encryption schedule |
| `Aes.InvertSchedule` | src/lib/aes.c:831-865 | Reversing in place and unmixing all but the first and the last round key gives the inverted schedule |
| `Aes.ReverseKeys` | src/lib/aes.c:831-845 | The in-place swap loop reverses the order of the round keys |
| `Aes.TeIsMix` | src/lib/aes.c:31-36 | Four encryption tables together substitute and mix one column |
| `Aes.TdIsUnmix` | src/lib/aes.c:38-42 | Four decryption tables together substitute and unmix one column |
| `Aes.EncColumnIs` | src/lib/aes.c:1026-1063 | A column of a full round and of the masked last round |
| `Aes.DecColumnIs` | src/lib/aes.c:1248-1285 | The same for decryption |
| `Aes.UnmixWordIs` | src/lib/aes.c:846-865 | Looking up decryption tables at substituted bytes unmixes a word |
| `Aes.RconTable` | src/lib/aes.c:717-721 | The table holds the round constants of the standard, the powers of x |
| `Aes.EncRound` | src/lib/aes.c:1026-1063 | One full table round is one round of the cipher |
| `Aes.DecRound` | src/lib/aes.c:1248-1285 | One full table round is one round of the inverse cipher |
| `Aes.Expand128` | src/lib/aes.c:748-763 | The loop for 128-bit keys fills 44 words |
| `Aes.Expand192` | src/lib/aes.c:767-784 | The loop for 192-bit keys fills 52 words |
| `Aes.Expand256` | src/lib/aes.c:788-814 | The loop for 256-bit keys, with its extra substitution, fills 60 words |
| `CounterMode.SeekAgrees` | src/clients/gateway/gw-stream.c:147-153 | Decryption that starts at a block offset with the counter set for it equals the rest of the decryption from the start |
| `CounterMode.StreamAndSeek` | src/clients/gateway/gw-stream.c:106-220 | Two requests for one file, each with its own context: what the one from a block offset below 2^31 streams is what the one from the start streams from there on |
| `CounterMode.Stream` | src/clients/gateway/gw-stream.c:106-220 | One request streams the plain text of its packet under the file's key and the counter that the seek loop comes to |
| `CounterMode.SeekExactly` | src/clients/gateway/gw-stream.c:147-153 | The seek loop sets the counter for the offset exactly when the offset is below 2^31, because of the cast to int |
| `CounterMode.PacketsAgree` | src/clients/gateway/gw-stream.c:175-220 | Any cut of the stream into packets of whole blocks gives the same plain text |
| `ByteCounter.IncrementAddsOne` | src/clients/gateway/gw-stream.c:205-209 | The carry loop adds one and wraps round to zero (NIST SP 800-38A, appendix B.1) |
| `CounterMode.StreamByte` | src/clients/gateway/gw-stream.c:106-220 | Every byte of a stream, in numbers: place i of the plain text is the byte at 1024 (i / 1024) + 256 (i mod 4) + (i mod 1024) / 4 of the file, masked with byte i mod 16 of the encryption of the counter block whose number is the first one plus i / 16, modulo 2^128 |
| `CounterMode.FirstCounter` | src/clients/gateway/gw-stream.c:133-137 | The first counter block of every file, as a number |
| `CounterMode.IvAtValue` | src/clients/gateway/gw-stream.c:147-153 | The counter counts modulo 2^128 |
| `CounterMode.DealingPermutes` | src/clients/gateway/gw-stream.c:184-195 | Taking the four quarters in turn is a permutation of each block of 1024 bytes |
| `CounterMode.BlockIsPlain` | src/clients/gateway/gw-stream.c:181-216 | A block dealt out and masked is the plain text of that block (NIST SP 800-38A, section 6.5) |
| `CounterMode.IncrementIv` | src/clients/gateway/gw-stream.c:205-209 | The in-place loop over 16 bytes |
| `CounterMode.StreamCtx.constructor` | src/clients/gateway/gw-stream.c:126-155 | Key schedule and counter for the offset asked for |
| `CounterMode.StreamCtx.Deinterleave` | src/clients/gateway/gw-stream.c:184-195 | The four pointers deal the block out and leave the rest alone |
| `CounterMode.StreamCtx.DecryptSixteen` | src/clients/gateway/gw-stream.c:200-214 | One counter block is used and advanced |
| `CounterMode.StreamCtx.DecryptBlock` | src/clients/gateway/gw-stream.c:198-215 | 64 counter blocks mask 1024 bytes |
| `CounterMode.StreamCtx.Data` | src/lib/despotify.c:288-330 | A packet appends the plain text of its whole blocks and advances the counter by 64 for each |
| `Sha1.Transform` | src/lib/sha1.c:115-174 | The rolling 16-word workspace with rotated register names computes, for every state and block, what the 80-word schedule of FIPS 180-4, section 6.1.2 defines |
| `Sha1.Blk` | src/lib/sha1.c:42-43 | The slot that is overwritten holds the next schedule word, and the workspace still has the 16 newest |
| `Sha1.Blk0` | src/lib/sha1.c:36-38 | The first 16 words are the block's words in big-endian order |
| `Sha1.DoR01` | src/lib/sha1.c:71-79 | Rounds 0 to 19 with rotated names |
| `Sha1.DoR2` | src/lib/sha1.c:81-89 | Rounds 20 to 39 |
| `Sha1.DoR3` | src/lib/sha1.c:91-99 | Rounds 40 to 59 |
| `Sha1.DoR4` | src/lib/sha1.c:101-109 | Rounds 60 to 79 |
| `Sha1.Context.Init` | src/lib/sha1.c:180-190 | The context holds the empty message |
| `Sha1.Context.Update` | src/lib/sha1.c:196-215 | Over any sequence of calls the context holds the concatenation: hash of the whole blocks, the rest in the buffer, and the bit count modulo 2^64 in two words |
| `Sha1.Context.UpdateWhole` | src/lib/sha1.c:205-210 | Completing the buffer and hashing every whole block of the data |
| `Sha1.Context.PadZeros` | src/lib/sha1.c:232-233 | The padding loop adds the number of zeros that section 5.1.1 of FIPS 180-4 asks for, and ends |
| `Sha1.Context.Final` | src/lib/sha1.c:221-241 | The digest is the hash of the message held, padded as the standard says |
| `Sha1.CountersExactly` | src/lib/sha1.c:200-203 | A call keeps the 64-bit count right exactly when it is shorter than 2^29 bytes or the low counter overflows |
| `Sha1.CountUp` | src/lib/sha1.c:200-203 | Below 2^29 bytes a call keeps the two counters equal to the true bit count |
| `Sha1.CountIndex` | src/lib/sha1.c:204-204 | The low counter gives the place in the buffer |
| `Sha1Spec.FoldConcat` | src/lib/sha1.c:205-210 | Hashing whole blocks and then the rest is hashing all |
| `Hmac.Sha1Hmac` | src/lib/hmac.c:17-61 | The result is HMAC of RFC 2104, section 2, for keys and messages below 2^29 bytes each, also when key, message and result overlap |
| `Hmac.PadKey` | src/lib/hmac.c:40-48 | The pads are the zero-extended key masked with 0x36 or 0x5c |
| `Hmac.ShortKey` | src/lib/hmac.c:29-38 | A key longer than a block is replaced by its hash |
| `TrackSort.TracklistSort` | src/clients/despotify/sort.c:69-135 | Relinks the nodes of the list into the sorted list that the run-length-doubling merge describes, over the same nodes, and ends |
| `TrackSort.SortedTracks` | src/clients/despotify/sort.c:5-18 | On keys where the comparison is the intended order: same tracks, sorted by artist, album and number, equals in their old order |
| `TrackSort.NumbersExactly` | src/clients/despotify/sort.c:14-15 | With equal names the comparison has the right sign exactly when the difference of the numbers is an int |
| `TrackSort.NamesExactly` | src/clients/despotify/sort.c:10-12 | With different names, and no overflow, it has the right sign for all numbers exactly when the album cannot outweigh the artist |
| `TrackSort.DifferencesCanCycle` | src/clients/despotify/sort.c:10-12 | With a `strcmp` that returns character differences, three tracks can compare in a circle |
| `TrackSort.NormalisedAgrees` | src/clients/despotify/sort.c:5-18 | A `strcmp` that returns -1, 0 or 1 and numbers less than 2^31 apart make the comparison the intended order |
| `TrackSort.AgreeableRanks` | src/clients/despotify/sort.c:5-18 | There the comparison is a total preorder |
| `TrackSort.ListDistinct` | src/clients/despotify/sort.c:69-135 | A list that ends has no node twice |
| `TrackSort.MergeRuns` | src/clients/despotify/sort.c:99-123 | The merge loop appends the stable merge of two runs to the output, node by node |
| `TrackSort.FindRun` | src/clients/despotify/sort.c:88-95 | The walk finds the end of the run or of the list |
| `TrackSort.OnePass` | src/clients/despotify/sort.c:84-128 | One pass relinks all nodes into the pairwise merged runs, and counts at most one merge exactly when one merge covered the list |
| `TrackSort.Append` | src/clients/despotify/sort.c:118-122 | A node is linked behind the output |
| `TrackSort.Terminate` | src/clients/despotify/sort.c:128-128 | The last link is cleared and the output is a list |
| `MergeSort.SortCorrect` | src/clients/despotify/sort.c:69-135 | For any total preorder: a permutation, sorted, and stable |
| `MergeSort.SortSorts` | src/clients/despotify/sort.c:79-134 | Passes with doubled run length end in a sorted list |
| `MergeSort.SortStable` | src/clients/despotify/sort.c:79-134 | They keep the order of items that rank equal |
| `MergeSort.SortPermutes` | src/clients/despotify/sort.c:79-134 | They keep the items |
| `MergeSort.PassSortsRuns` | src/clients/despotify/sort.c:84-128 | A pass makes runs of twice the length sorted |
| `MergeSort.MergeStable` | src/clients/despotify/sort.c:99-123 | A merge keeps equal items of the first run in front of those of the second |
| `BaseConvert.IdRoundTrip` | src/lib/despotify.c:1456-1464 | 32 hexadecimal digits always fit 22 digits to base 62 and come back from them |
| `BaseConvert.UriRoundTrip` | src/lib/despotify.c:1456-1464 | 22 digits to base 62 fit 32 hexadecimal digits, and then come back, exactly when their value is below 2^128 |
| `BaseConvert.ThereAndBack` | src/lib/despotify.c:1419-1454 | Converting to another base and back gives the same string whenever the value fits |
| `BaseConvert.ConvertedValue` | src/lib/despotify.c:1419-1454 | A conversion keeps the value, and has the asked number of digits exactly when the value fits them |
| `BaseConvert.Divide` | src/lib/despotify.c:1438-1450 | The in-place long division preserves the number: quotient times base plus remainder; no leading zeros |
| `BaseConvert.DivideDigit` | src/lib/despotify.c:1442-1449 | One digit of the division, written over the digits that were read |
| `BaseConvert.Convert` | src/lib/despotify.c:1419-1454 | Fills the destination from its end with the digits of the value and a NUL, and nothing behind |
| `BaseConvert.IdToUri` | src/lib/despotify.c:1456-1459 | The conversion of an identifier, in bounds for every identifier |
| `BaseConvert.UriToId` | src/lib/despotify.c:1461-1464 | The conversion of a URI below 2^128 |
| `BaseConvert.BaseConvert` | java/trunk/src/main/java/se/despotify/util/SpotifyURI.java:39-73 | The Java loop prepends digits to the value's digits without padding |
| `BaseConvert.PaddedConvert` | java/trunk/src/main/java/se/despotify/util/SpotifyURI.java:12-37 | With the padding loop the Java twin gives what the C code leaves in its destination |
| `BaseConvert.DigitsFit` | src/lib/despotify.c:1430-1452 | A number has at most n digits exactly when it is below the n-th power of the base |
| `BaseConvert.SameDigits` | src/lib/despotify.c:1419-1454 | Equally long digit strings of one value are the same |
| `BaseConvert.ValueOfDigits` | src/lib/despotify.c:1419-1454 | The digits of a number have that number as their value |
| `ChannelRegistry.RunSound` | src/lib/channel.c:22-101 | In every run of registrations, removals and packets, live ids are distinct and the next id to hand out is never live |
| `ChannelRegistry.RunSees` | src/lib/channel.c:103-204 | Whatever happens to other channels, a channel's callback sees exactly what its own packets make of it, and once they remove it it is gone for good |
| `ChannelRegistry.StreamSeen` | src/lib/channel.c:103-204 | For a well-formed stream of packets the callback sees every header, then every piece of data once and in order, then the end, or the error that took the place of a packet among the headers or the data; the totals add up modulo 2^32 and the channel is removed |
| `ChannelRegistry.StreamDelivered` | src/lib/channel.c:22-204 | Of a channel that is registered at any time of any run and gets a well-formed stream, whether an empty packet or an error ends it, the log of all calls holds exactly the headers, the data and one end or error, in order, and the channel is gone |
| `ChannelRegistry.TerminalCallOnce` | src/lib/channel.c:22-204 | Of a channel that is registered at any time of any run, whatever its packets are: at most one call is an end or an error and it is the last one; and the channel is gone exactly when there was that call or something else unregistered it, never both |
| `ChannelRegistry.EndsOnce` | src/lib/channel.c:103-204 | Whatever packets a channel gets, they remove it exactly when its last call is an end or an error, and no call before is one |
| `ChannelRegistry.GoneExactly` | src/lib/channel.c:65-204 | Over any run, a channel is gone exactly when its own packets removed it or a step unregistered it, and not both |
| `ChannelRegistry.ErrorSeenExactly` | src/lib/channel.c:103-204 | A packet with the error flag makes exactly one call and removes its channel; the call tells of an error exactly when there are bytes behind the id, and of an ordinary end exactly when there are none |
| `ChannelRegistry.EmptyErrorLooksLikeEnd` | src/lib/channel.c:129-135 | A channel whose only packet is an error without bytes sees one call, an end without data |
| `ChannelRegistry.HeadersFound` | src/lib/channel.c:143-184 | The header loop finds exactly the headers that were written, up to the packet's end or the header of size zero |
| `ChannelRegistry.PacketForMe` | src/lib/channel.c:103-204 | A packet for a channel adds its own calls to the log, and removes the channel exactly at an end or an error |
| `ChannelRegistry.OthersLeaveIt` | src/lib/channel.c:22-204 | No step but its own packets and its own removal touches a channel |
| `ChannelRegistry.StaysGone` | src/lib/channel.c:65-91 | A removed channel is not seen again, also when its id is reused |
| `ChannelRegistry.RegisterSound` | src/lib/channel.c:22-63 | A registration hands out an id that is not live and keeps ids distinct |
| `ChannelRegistry.UnregisterSound` | src/lib/channel.c:65-91 | A removal frees the id and keeps the promise about the next one |
| `ChannelRegistry.ProcessSound` | src/lib/channel.c:103-204 | So does a packet, with the registrations its callback makes |
| `ChannelRegistry.RaisedAbove` | src/lib/channel.c:31-37 | The loop lifts the next id above every channel of the list |
| `ChannelRegistry.DataSeen` | src/lib/channel.c:187-203 | Pieces of data and the empty packet or the error behind them are seen once and in order |
| `ChannelRegistry.Registry.Register` | src/lib/channel.c:22-63 | A new channel at the head of the list, with the id and the next id as the definition says |
| `ChannelRegistry.Registry.Unregister` | src/lib/channel.c:65-91 | Takes the channel out and lowers the next id to a freed lower one |
| `ChannelRegistry.Registry.ById` | src/lib/channel.c:92-101 | The first channel with the id, or none |
| `ChannelRegistry.Registry.Process` | src/lib/channel.c:103-204 | A packet takes the abstract step: calls, states, totals, removal, and whether an assertion fails |
| `ChannelRegistry.Registry.HeaderLoop` | src/lib/channel.c:143-178 | The loop calls back for each header, counts them, and ends as the definition says |
| `XmlSource.SourceParsed` | src/lib/ezxml.c:470-600 | Every document of a surface grammar (elements with content or empty, attributes in either kind of quotes or bare, any white space, text with references, comments, processing instructions, cdata sections; and around the root text, comments, an XML declaration and a document type) is read as the element it stands for: decoded and joined text, attributes in order, children at the offsets where the text has come to |
| `XmlSource.NodeSeen` | src/lib/ezxml.c:491-597 | Any such element, whatever document is open and whatever stands behind it, becomes the root or the last child of the open element, and reading goes on behind it |
| `XmlSource.SelfClosing` | src/lib/ezxml.c:534-542 | `<name k="v"/>` in any open document adds the element without text and children, as the root or as the last child of the open element where that one's text stands, and reading goes on behind it |
| `XmlSource.EmptySeen` | src/lib/ezxml.c:534-542 | An empty tag with attributes of any form is opened and closed at once, whatever stands behind it |
| `XmlSource.EmptyAlike` | src/lib/ezxml.c:534-542 | An empty tag and a start tag with its end tag at once read alike, in every document |
| `XmlSource.AttrsSeen` | src/lib/ezxml.c:501-532 | The attribute loop reads any list of attributes: in double or single quotes, with white space around the equals sign, or bare |
| `XmlSource.TagSeen` | src/lib/ezxml.c:495-551 | A tag with any such attributes is read up to `>` or `/>`, and refused when something else follows the `/` |
| `XmlSource.PiecesSeen` | src/lib/ezxml.c:491-597 | Text, elements, comments and cdata sections in turn fill the open element with what they stand for |
| `XmlSource.CommentSeen` | src/lib/ezxml.c:560-563 | A comment ends at the first `--` and leaves no trace |
| `XmlSource.InstSeen` | src/lib/ezxml.c:578-583 | A processing instruction, as the XML declaration in front of a document, ends at the first `?>` and leaves no trace |
| `XmlSource.DeclSeen` | src/lib/ezxml.c:569-577 | A document type declaration without an internal subset ends at the first `>` and leaves no trace |
| `XmlSource.SectionSeen` | src/lib/ezxml.c:564-568 | A cdata section becomes text undecoded, but for its line ends, up to the first `]]>` |
| `XmlSource.CloseSeen` | src/lib/ezxml.c:553-559 | An end tag, with white space behind the name, closes the element of its name |
| `XmlSource.WrongClose` | src/lib/ezxml.c:257-260 | An end tag with another name than the open element, or without one, is an error |
| `XmlSource.WrongEnd` | src/lib/ezxml.c:553-559 | An element, whatever its content is, that ends with another name is an error |
| `XmlSource.SecondRoot` | src/lib/ezxml.c:492-493 | An element behind the root is an error |
| `XmlSource.TextEnds` | src/lib/ezxml.c:596-600 | Where no markup follows, the answer is the root, or the error for a missing or an unclosed one |
| `XmlSource.NotEnded` | src/lib/ezxml.c:560-568 | A comment, a cdata section, a processing instruction or a document type declaration that does not end is an error |
| `XmlSource.NotQuoted` | src/lib/ezxml.c:513-523 | A value without its closing quote is an error, whatever stands behind |
| `XmlSource.StrayOpening` | src/lib/ezxml.c:584-584 | A `<` in front of what begins no markup is an error |
| `XmlRefs.ReferenceDecoded` | src/lib/ezxml.c:174-188 | A character reference with any number of decimal or hexadecimal digits, in content or in an attribute, with any table, becomes the UTF-8 form (RFC 3629, section 3) of its number below 2^21, and decoding goes on behind it |
| `XmlRefs.NumberDecoded` | src/lib/ezxml.c:174-188 | In particular for every number from 1 to below 2^21 and its digits in either base and either case |
| `XmlRefs.EntityDecoded` | src/lib/ezxml.c:189-203 | A reference to any entity of a table becomes what its value in front of the rest becomes |
| `XmlRefs.NamesDecoded` | src/lib/ezxml.c:836-837 | The five names `lt`, `gt`, `quot`, `apos` and `amp` and the character that each stands for |
| `XmlRefs.AmpersandStays` | src/lib/ezxml.c:189-205 | A `&` that begins no known reference stays |
| `XmlRefs.OtherStays` | src/lib/ezxml.c:170-207 | Every other character stays, but that white space in an attribute becomes a space |
| `XmlRefs.SectionStays` | src/lib/ezxml.c:158-218 | In a cdata section nothing is decoded |
| `XmlRefs.LineEnds` | src/lib/ezxml.c:163-168 | CR LF and CR become LF behind any text |
| `XmlRefs.StrtolReads` | src/lib/ezxml.c:176-177 | `strtol` reads a run of digits up to the `;` |
| `XmlPrint.EncodedHead` | src/lib/ezxml.c:667-688 | What is written for each character in front of any text, in an attribute and in content |
| `XmlPrint.LeafPrinted` | src/lib/ezxml.c:706-736 | The form of an element with an attribute and without children, with an end tag even when there is no content |
| `XmlPrint.ChildPrinted` | src/lib/ezxml.c:700-740 | A child is printed at its offset, between the two parts of the text |
| `ShannonMac.OneWordTold` | src/lib/shn.c:104-122 | From one state, two messages that differ in exactly one word leave states that differ both in the register and in the CRC, whatever the rest of the message is |
| `ShannonMac.BurstSeen` | src/lib/shn.c:285-465 | Two messages that differ only within a stretch of 16 words are closed with different CRCs, whatever is in front of the stretch and behind it |
| `ShannonMac.EndSeen` | src/lib/shn.c:285-465 | So are two messages of one length that differ only in the last up to 64 bytes, also when these end within a word |
| `ShannonMac.ClosedInjective` | src/lib/shn.c:427-450 | Finishing a message hides no difference: states that differ in CRC or register, with equal words begun, are closed to states that differ |
| `ShannonMac.RestInjective` | src/lib/shn.c:327-372 | No message that follows hides a difference between two states |
| `ShannonMac.WordInjective` | src/lib/shn.c:118-122 | For one word the step is injective in the register and in the CRC |
| `ShannonMac.AddInjective` | src/lib/shn.c:167-168 | For one register, adding is injective in the word |
| `ShannonMac.CycleInjective` | src/lib/shn.c:74-89 | A cycle of the register can be run backwards |
| `ShannonMac.CrcInjective` | src/lib/shn.c:104-114 | A step of the CRC can be run backwards |
| `ShannonMac.CycledAt` | src/lib/shn.c:74-89 | The register and the stream word behind a cycle, word by word |
| `ShannonMac.LoadedIs` | src/lib/shn.c:183-221 | Key material and its length are folded in, the register is kept, cycled sixteen times, and what was kept is put on top |
| `ShannonMac.StartIs` | src/lib/shn.c:236-243 | Generation starts at a word boundary from the loaded register, with its first word as the constant |
| `ShannonMac.LoadedTold` | src/lib/shn.c:183-221 | Two different keys of one length up to 48 bytes, loaded into one state, leave different CRCs |
| `ShannonMac.NonceTold` | src/lib/shn.c:236-243 | Nor do two different nonces under one key |
| `ShannonMac.TagIs` | src/lib/shn.c:427-465 | A tag of four bytes is the stream word behind the end of the message |
| `PacketNonce.NonceCounts` | src/lib/packet.c:72-72 | The counter after n packets, as a number, is n modulo 2^32 |
| `PacketNonce.SentUnder` | src/lib/packet.c:77-129 | After any run, the next packet goes out under the nonce whose four bytes are, most significant first, the number of packets sent so far modulo 2^32; header and payload are encrypted behind one another and the tag of both follows |
| `PacketNonce.ReceivedUnder` | src/lib/packet.c:22-75 | After any run, the next packet is read under the number of packets received so far |
| `PacketNonce.NoncesFresh` | src/lib/packet.c:77-129 | Over any two runs that lie less than 2^32 packets apart, the nonces are different |
| `PacketNonce.NoncesApart` | src/lib/packet.c:117-117 | Two packets share a nonce exactly when a multiple of 2^32 packets lies between them |
| `PacketNonce.HeaderIs` | src/lib/packet.c:91-93 | The header is the command and the length, most significant byte first |
| `SndTracks.TrackRequested` | src/lib/despotify.c:345-404 | Over every run in which the track goes on: its requests ask for adjacent stretches of 200 KB, without gap and overlap, and the offset is 200 KB for each complete answer; they begin at 0, but at 200 KB if a request was open when the track began |
| `SndTracks.AdjacentExactly` | src/lib/despotify.c:345-404 | So the requests for a track ask for it from its beginning on exactly when no request was open when it began |
| `SndTracks.TrackBegins` | src/lib/despotify.c:345-485 | A track begins at offset 0: when it is played, when the user stops, and when a short answer ended the one before; only a track that is played can begin with an open request |
| `SndTracks.AnswerEndsTrack` | src/lib/despotify.c:345-378 | An answer ends its track exactly when it brought less than 200 KB, and then the next playable track is asked for from 0 and an END is queued; else the offset moves on by 200 KB |
| `SndTracks.ReceivedCounts` | src/lib/despotify.c:288-336 | While a request is open, what counts as received is what arrived |
| `SndTracks.FillExactly` | src/lib/sndqueue.c:108-142 | A fill asks exactly when there is no abort and the queue is below the watermark, or leaves room for a substream while the controller fills; then it asks for the current track from the offset on |
| `SndTracks.AnswerExactly` | src/lib/despotify.c:345-378 | What the end of an answer does to track, offset, queue, counts and state |
| `SndTracks.PushExactly` | src/lib/sndqueue.c:258-309 | Without an abort, data and keys are queued behind what is there and counted |
| `SndTracks.StopExactly` | src/lib/sndqueue.c:145-184 | Under an abort nothing is queued, and a stop leaves nothing queued and the track at its beginning |
| `SndTracks.BusyExactly` | src/lib/despotify.c:277-404 | When all requests are sent and none fails, the controller is busy exactly while a request is open |
| `SndTracks.ErrorsInARow` | src/lib/despotify.c:338-350 | The error count is the number of failures since the last complete answer |
| `SndTracks.PageExactly` | src/lib/sndqueue.c:274-291 | The size taken for the first Ogg page is that of RFC 3533, section 6, exactly when the page has one segment |
| `SndRuns.SkippedBeginning` | src/lib/despotify.c:420-451 | A session comes there, and the track loses its beginning: behind a stop the fill asks for the stopped track before the next one is played, the answer counts for that one, and it is first asked for from byte 204800 on |
| `AesStandard.StandardExample` | src/lib/aes.c:869-1089 | The cipher of FIPS 197, with the literal S-box, on the key and the block of its appendix B |
| `AesStandard.SboxIs` | src/lib/aes.c:314-378 | The literal S-box is, for every byte, the affine map of the inverse in GF(2^8), as section 5.1.1 of FIPS 197 defines it |
| `AesStandard.SboxInverts` | src/lib/aes.c:650-714 | The two literal S-boxes undo each other, so that they are a pair for which the theorems about the table code hold |
| `AesStandard.Key10` | src/lib/aes.c:748-763 | The last words of the expanded 128-bit key of appendix A.1 |
| `AesStandard.Key192` | src/lib/aes.c:767-784 | The first new words of the 192-bit key of appendix A.2 |
| `AesStandard.Key256` | src/lib/aes.c:788-814 | The new words of the 256-bit key of appendix A.3 up to the one with the extra substitution |
| `Sha1Standard.StandardExample` | src/lib/sha1.c:115-241 | SHA-1 of "abc", padding, 80 rounds and digest, is the digest of the standard's example |
| `Sha1Standard.PaddedIs` | src/lib/sha1.c:222-234 | The padding, for every message: the message, the bit 1, as few zeros as make whole blocks, and the number of bits in eight bytes, most significant first, modulo 2^64 |
| `Hmac.HmacExactly` | src/lib/hmac.c:17-61 | For every key and text: the hash of the key block XORed with 0x5c, followed by the hash of the key block XORed with 0x36 followed by the text |
| `Hmac.KeyBlockIs` | src/lib/hmac.c:29-48 | The key block is the key, or the hash of a key longer than a block, with zeros behind it to 64 bytes, and nothing else is |
| `BaseConvert.IdExactly` | src/lib/despotify.c:1456-1459 | Of all strings of 22 digits to base 62, the URI of an identifier is the one whose value is that of the identifier's hexadecimal digits |
| `BaseConvert.Alphabet` | src/lib/despotify.c:1422-1423 | Digits and characters are each other's places in the string of the code |
| `BaseConvert.ValueFirst` | src/lib/despotify.c:1438-1450 | The first digit of a number counts the power of the base that the digits behind it are short of |
| `ChannelRegistry.StreamCounted` | src/lib/channel.c:103-204 | For a new channel's well-formed stream, the totals are the number of headers, their bytes and the bytes of data, each modulo 2^32 |
| `ChannelRegistry.RegisterExactly` | src/lib/channel.c:22-63 | The new channel has the id that was next, and the next id is the least above it and every live one |
| `ChannelRegistry.FreedIdReused` | src/lib/channel.c:65-91 | After a removal the freed id is handed out next when it is lower than the one that was next |
| `ChannelRegistry.IdRead` | src/lib/channel.c:103-115 | A packet is for the channel whose id its first two bytes are, most significant first |

## Left out

- `shn_stream`, and `Shannon.java` (whose word loop ignores bytes that were consumed already).
- The literal AES tables of words: they are defined from an S-box and multiplication in GF(2^8). The S-box is any pair of inverse functions; `AesStandard` has the literal one.
- `FULL_UNROLL`, sparc and `INTERMEDIATE_VALUE_KAT` variants.
- The last partial block of 1024 bytes of a stream, which the code leaves undecrypted.
- `tracklist_dedup`, which steps past the successor after a removal.
- Sockets, key exchange, zlib, audio decoding, user interfaces, bindings, logging and files.
- Allocation failure and `free` bookkeeping.
- Sha1.Context.Update: is stated for calls shorter than 2^29 bytes, because longer ones can lose counts; `Sha1.CountersExactly` says when.
- Hmac.Sha1Hmac: is stated for keys and messages shorter than 2^29 bytes, for the same reason.
- BaseConvert.Convert: is stated for values that fit the destination, because the code writes in front of the destination otherwise; `BaseConvert.ConvertedValue` says when they fit. `BaseConvert.UriToId` has the same condition.
- SndQueue: sizes set during a run (`despotify_set_buffer_size`, `despotify_set_watermark`), the process exit at the fourth channel error in a row (the run ends there), and the search for a track in `despotify_next`.
- SndQueue.Session.Push: says nothing about the state in which the code has read what is not there; nor do `SndQueue.Session.Fill` and `SndQueue.Session.SubstreamEnded`.
- LateStop: what follows the assignment of a stop (emptying the queue, and clearing the abort flag) is one step with it.
- SndQueue: a consume call is one method per stretch between waits, because a method cannot sleep; the call as a whole is the sequence of those steps.
- Channel names, private pointers and the ids' width as C ints; what callbacks do beyond registering further channels after a data packet.
- ChannelRegistry.Registry.Process: is stated for packets of at least two bytes that are followed by one readable byte, which the buffers of the packet layer have.
- The `%` and `*` modes of the decoder, which DTDs and attribute defaults use.
- XmlText.CheckIsExact: is stated for names in which `;` is the last character only, as in XML; `XmlText.DefinitionKeeps` has no such condition.
- XmlText.Decode: does not model the scan behind the end of a text whose last character is a carriage return, because that memory belongs to the caller's document.
- XmlText.Decode: a character reference of more than 41 bits, for which C leaves a shift undefined, has its shift read as 0.
- XmlBuild.ParseStr: answers `Unmodelled` for document type declarations with an internal subset, and for the processing instruction `<?>`, for which the code writes in front of the instruction; the list of processing instructions and the mark for standalone documents are not kept; a tag's name is set when the tag is made, also the root's, and the text is taken as UTF-8, with the conversion in `Utf8`.
- XmlPrint.ToXml: takes the parent and the next tag of the tag that is printed as put aside, where the code clears the two links during the call.
- XmlLoops.CompletenessExactly: is stated for names in which `;` is the last character only, as in XML; `XmlLoops.InnerSemicolonLoop` shows what another name can do.
- XmlParse.PutAttrs: leaves out every later attribute of a name; the code compares the pointers of the values (src/lib/ezxml.c:708), so that a later one without a quoted value, whose value is the same empty literal, is printed as well.
- XmlTree.Insert: is stated for offsets not below an existing child's, because the code does not keep the sibling list otherwise, and the parser makes no other (`XmlOrder.ParsedInOrder`); `XmlTree.AddChild` has the same condition, and `ezxml_cut` is left out for the same reason.
- The public functions of ezxml that only set fields or free memory, and line numbers in its error messages.
