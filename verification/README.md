# Outbound mail, live events, search walks and send runs

A Dafny model of the parts of `squelch-api` that are hardest to get right by reading: the hand-written
MIME writer, the live notification feed, the searches that grow a window, and the send runs that must
leave the store consistent whatever fails. `dafny verify dfyconfig.toml` checks all of it.

**The MIME writer.** `Text`, `LineEnds`, `Utf8`, `Base64`, `QuotedPrintable`, `Rfc2231`, `HeaderFields`,
`Boundary`, `Attachments`, `HonestFiles`, `DispositionLimits`, `Html` and `Escaping` model the pieces. `MimeReader` is a
recipient, written from RFC 2045, RFC 2046 section 5.1.1 and RFC 2231, independent of the writer.
`MimeTree`, `Reply` and `Forward` say what has to be written and prove that the recipient reads it back;
`PartWriter`, `ReplyBuilder` and `ForwardBuilder` hold the loops, each proved to write exactly that.
`WhatArrives` says in the standard's own terms what a recipient finds: which value under which header, and what
content. `Delimiters`, `QuotedBlock`, `ShownText` and `InlineImages` add what no crafted content can do. `CharsetMeta`, `TagScanner` and
`CharsetSplice` are the charset-tag strip a forward runs. `Addresses`, `Recipients` and `SendAudience` are
who a reply goes to.

**The event feed.** `EventFeed` is a transition system: writers append and then wake, one connection
subscribes, fixes its cursor, pumps batches, emits, parks. Its invariants hold in every state of every run.

**Searches and sends.** `AgentSearch`, `RecallWalk` and `RecallCursor` are the searches and the cursor a
client carries; `FanOut`, `SendAction` and `SendDesk` are the sends, run against a Gmail and a store that may
fail at every step. `SendPaths` is the run from the outside: the checks in order, the path
taken and what an accepted run does. `SendCompose` ties what a run refuses to compose to what the builders refuse, `SendTokens`
is what the group-token check keeps off the wire, `SendLedger` what the audit line of a send says.

Text is a sequence of Unicode scalar values and becomes UTF-8 bytes on the wire. What the code asks of the
outside is a parameter: the content hash of the boundary fallback (any function to 64 bits), the mail
library's address parsing, the guard's findings, the store's rankings, Gmail's answers. What is assumed of
them is named:

- `Addresses.Faithful`: a plain comma-joined list of emittable addresses is read back as that list. Emittable is
  what the code lets out, which includes atoms holding parentheses, where a real library may read a comment; for
  those the assumption asks more than the library is known to give.
- `AgentSearch.Nearest`: a semantic window holds the matching ones of the `k` nearest messages, in any order, and is
  not full only when there are no more. It rests on no spam being indexed: ingestion embeds
  none (`sync/mod.rs:2295`) and a message once visible never turns into spam (`messages.rs:85`).
- `AgentSearch.Fuses`: a hybrid window is filled from the two legs together, each listing a message once. That its
  flag tells the truth (`Covers`) and goes down (`Exhausts`) is proved from it (`AgentSearch.FusedCovers`).
- `RecallWalk.Sound`: a candidate pool lists an id once, and a window-full flag that is down tells the truth.

## What the code does and its comments do not say

- `gmail_write.rs:1774`: space and tab are said to be encoded only where they would end a line. A tab is
  always encoded, because 9 lies outside 32..=126. A blank is written literally exactly when it is a space that
  does not end its line (`QuotedPrintable.BlankIsLiteral`), and no encoded line holds a tab
  (`QuotedPrintable.NoTabIsWritten`).
- `gmail_write.rs:1694-1699`: the 80-character cap is said to keep the disposition line under 998 octets.
  It does when at most 45 of the characters take four UTF-8 bytes (`DispositionLimits.CappedLength`); for
  every larger count a file with nothing to clean about it breaks it, up to 1103 octets
  (`DispositionLimits.CapIsNotEnough`).
  `DispositionLimits.FitsExactly` gives the exact condition.
- `gmail_write.rs:1308-1351`: the strip takes out every charset-declaring `<meta` it sees, but taking one out
  can join the text around it into a new one (`CharsetSplice.SplicedTagSurvives`). The output is the input's
  document with those tags gone exactly when no text joined that way spells `<meta` (`CharsetSplice.OutputIsMerged`);
  then one pass is enough (`CharsetSplice.OnePassIsEnough`). A second pass changes nothing exactly when no tag of the
  output declares a charset (`CharsetSplice.SecondPass`).
- `gmail_write.rs:299`: a reply keeps a lone CR inside its line; only a forward makes it a line end
  (`LineEnds.NormalizedLines` says exactly what the lines are in both).
- `gmail_write.rs:215-223`: the fallback loop counts in a `u32` without a limit. The count
  never exceeds the number of characters probed (`Boundary.BoundaryIsClean`), so it cannot wrap while fewer than
  2^32 characters are probed (`Boundary.CounterCannotWrap`).
- `group_send.rs:210-223`: when the write credential is gone, the comment says the whole batch is failed; the code
  fails every pending row of the account. That keeps to the batch exactly when no other batch has a row pending
  (`FanOut.FailingKeepsToTheBatch`, and `FanOut.GroupSends.Run` for the run itself); with a second batch under
  way it fails that batch's rows too (`FanOut.AnotherBatchFails`).
- `handlers.rs:3838-3852`: an unresolved group token is said never to reach the wire. It is looked for in the
  stated `to` and `bcc` only. A single send carries one exactly when its stated `cc` holds one, or its `to` was
  copied from the stored sender or account and holds one; a fan-out exactly when a member's address does, its `cc`
  going nowhere (`SendTokens.TokensOnTheWire`, and `TokensInTheReply` and `TokensInTheForward` for the bytes).
  Both kinds are sent (`SendTokens.TokenInCcIsSent`, `SendTokens.TokenInParentIsSent`).
- `group_send.rs:75-79`: no emittable address is said to start with `#`. `#a@b` does, and is refused as a token
  (`SendTokens.HashAddressIsRefused`); a list of addresses is refused exactly when one of them starts so
  (`SendTokens.HonestListIsRefused`).
- `handlers.rs:4101-4115`: a send that reaches N people is said to say so in the ledger. A reply-all counts `to` for
  one person, so the count is right exactly when `to` holds one address (`SendLedger.LedgerCountsTheRoom`,
  `SendLedger.LedgerMissesTheRest`).
- `agent.rs:113-150`: semantic windows are re-sorted by recency, so the answer is no cut of one ranking
  (`AgentSearch.VotedIsNoCut`); what it holds is `AgentSearch.SemanticSearch`.

## Model

| member | source | states |
|---|---|---|
| LineEnds.NormalizedLines | squelch-api/src/gmail_write.rs:1872-1887 | Read at CRLF only, a forwarded body has the lines its source has when cut at CRLF, LF and lone CR, none holding a CR or LF; a reply's has those of its source cut at CRLF and LF, lone CRs kept |
| LineEnds.ReplyLines | squelch-api/src/gmail_write.rs:298-299 | The two replacements of a reply come to its lines joined by CRLF |
| LineEnds.ForwardLines | squelch-api/src/gmail_write.rs:1879-1884 | The three replacements of a forward come to its lines joined by CRLF |
| Utf8.RoundTrip | squelch-api/src/gmail_write.rs:340 | The bytes put on the wire decode to the text that was built, for every text |
| Base64.RoundTrip | squelch-api/src/gmail_write.rs:1531-1533 | An RFC 4648 section 4 decoder undoes the encoding of any bytes |
| Base64.BodyLines | squelch-api/src/gmail_write.rs:1528-1540 | The lines of an encoded file are at most 76 long, free of CR and LF, and joined decode to the file |
| Base64.EncodeBody | squelch-api/src/gmail_write.rs:1531-1540 | The chunking loop writes exactly those lines, none at all for empty data |
| Base64.BodyLacksUnderscore | squelch-api/src/gmail_write.rs:1815-1830 | An encoded file cannot spell the start of a boundary |
| QuotedPrintable.QpEncode | squelch-api/src/gmail_write.rs:1778-1813 | The loop with its column count writes the encoding the round trip is proved about |
| QuotedPrintable.RoundTrip | squelch-api/src/gmail_write.rs:1761-1813 | An RFC 2045 section 6.7 decoder gives back every byte string, also after a relay trimmed trailing blanks |
| QuotedPrintable.EncodedLines | squelch-api/src/gmail_write.rs:1759-1777 | No line is over 76 with its soft break, none ends in white space, no token is cut |
| QuotedPrintable.EncodedLacksEqualsUnderscore | squelch-api/src/gmail_write.rs:1821-1826 | Encoded text can never hold `=_` |
| QuotedPrintable.BlankIsLiteral | squelch-api/src/gmail_write.rs:1773-1801 | A blank is written literally if and only if it is a space that does not end its line |
| QuotedPrintable.NoTabIsWritten | squelch-api/src/gmail_write.rs:1773-1801 | No line of an encoded text holds a tab |
| Boundary.BoundaryIsClean | squelch-api/src/gmail_write.rs:177-224 | The boundary found occurs in no part, after at most 16 plain candidates and at most as many bumps as the parts have characters |
| Boundary.BumpBound | squelch-api/src/gmail_write.rs:215-223 | Among numbered candidates on one stem, no more can occur in the parts than there are places for one to end |
| Boundary.CounterCannotWrap | squelch-api/src/gmail_write.rs:209-223 | With fewer than 2^32 characters probed, the fallback's 32-bit counter does not wrap |
| Boundary.SameEnd | squelch-api/src/gmail_write.rs:215-217 | Two numbered fallback candidates cannot end at the same place |
| Boundary.HonestPartsTakeZero | squelch-api/src/gmail_write.rs:197-199 | Parts that nowhere spell the prefix get suffix 0 |
| Boundary.BoundaryIsPlain | squelch-api/src/gmail_write.rs:162-166 | A boundary is only ever `=`, `_`, letters and digits |
| Boundary.BoundaryWithPrefix | squelch-api/src/gmail_write.rs:200-224 | Both search loops end and return that boundary |
| HeaderFields.FieldsRoundTrip | squelch-api/src/gmail_write.rs:282-297 | Header lines with no line break in them are read back as the fields written |
| HeaderFields.ParamsRoundTrip | squelch-api/src/gmail_write.rs:1700-1746 | Every parameter written is read back with its value, whatever the others hold |
| Rfc2231.RoundTrip | squelch-api/src/gmail_write.rs:1627-1650 | Decoding the extended value gives the name back, for every name |
| Rfc2231.EncodedIsInert | squelch-api/src/gmail_write.rs:1635-1650 | Nothing in an encoded name can end the parameter or the line |
| Rfc2231.LengthIs | squelch-api/src/gmail_write.rs:1635-1650 | The encoded length counted character by character |
| Attachments.TruncatedName | squelch-api/src/gmail_write.rs:1610-1632 | A trimmed name fits the cap, starts as it did, keeps its extension; a short name is untouched; no new character appears |
| Attachments.HeadIsGood | squelch-api/src/gmail_write.rs:1546-1592 | Whatever a file calls itself, its type, name, method and Content-ID are clean and the name has 1 to 80 characters |
| Attachments.PartFieldsAreWellFormed | squelch-api/src/gmail_write.rs:1700-1755 | A file's header lines are exactly the fields meant, no line forged |
| Attachments.MarkInline | squelch-api/src/gmail_write.rs:347-357 | The flags are set in place to whether the html refers to the file, everything else untouched |
| Attachments.DispositionLength | squelch-api/src/gmail_write.rs:1734-1746 | The exact octets of the disposition line of a non-ASCII name |
| HonestFiles.HonestHead | squelch-api/src/gmail_write.rs:1542-1592 | A file with nothing to clean goes out under exactly its own name, type, method and Content-ID |
| HonestFiles.FilterDrops | squelch-api/src/gmail_write.rs:1542-1592 | Cleaning drops the offending characters and leaves everything else in order |
| HonestFiles.BracketedToken | squelch-api/src/gmail_write.rs:1577-1592 | A Content-ID in angle brackets is taken without them |
| HonestFiles.MessagePart | squelch-api/src/gmail_write.rs:1671-1692 | A message part is relabelled and keeps its name with `.eml` on it |
| HonestFiles.NamelessFile | squelch-api/src/gmail_write.rs:1661-1680 | A file with nothing left of its name is called `attachment`, one with nothing left of its type gets the universal one |
| HonestFiles.CleaningTakes | squelch-api/src/gmail_write.rs:1542-1592 | Exactly which characters cleaning takes out of a name, a type and a Content-ID |
| DispositionLimits.FitsExactly | squelch-api/src/gmail_write.rs:1694-1699 | The line is within 998 octets if and only if the name's counted cost is within 939 or 935 |
| DispositionLimits.AsciiFits | squelch-api/src/gmail_write.rs:1725-1746 | The line of an ASCII name is 40 or 44 octets and the name, at most 124 |
| DispositionLimits.CappedLength | squelch-api/src/gmail_write.rs:1694-1699 | At most 863 octets plus three per four-byte character, at most 1103, within 998 for up to 45 such characters |
| DispositionLimits.CapIsNotEnough | squelch-api/src/gmail_write.rs:1694-1699 | For every count over 45 of four-byte characters, a file with nothing to clean, of any ordinary type, that goes out with a line over 998, of 863 plus three octets for each |
| PartWriter.TypeLine | squelch-api/src/gmail_write.rs:1701-1723 | The Content-Type line with name, charset and method in the order written |
| PartWriter.DispositionLineOf | squelch-api/src/gmail_write.rs:1725-1746 | The disposition line, the extended name in front of the plain one where there is need |
| PartWriter.SettleHead | squelch-api/src/gmail_write.rs:1661-1699 | The cleaned head: fallback name, `.eml` and relabelling for messages, the cap |
| PartWriter.AttachmentPart | squelch-api/src/gmail_write.rs:1661-1757 | One file pushed as exactly the lines its cleaned head and its data call for |
| MimeReader.EncloseRoundTrip | squelch-api/src/gmail_write.rs:391-437 | Parts free of delimiter look-alikes between delimiter lines are exactly the parts read back, whatever follows |
| MimeTree.LevelsDiffer | squelch-api/src/gmail_write.rs:159-166 | No delimiter of one level begins like one of another |
| MimeTree.FileRead | squelch-api/src/gmail_write.rs:1661-1757 | A file is read back under its cleaned name, type, method and Content-ID with every byte of it |
| MimeTree.LevelRead | squelch-api/src/gmail_write.rs:364-437 | A multipart level is read back part by part, its type and root parameter included |
| ReplyBuilder.BuildReply | squelch-api/src/gmail_write.rs:257-342 | The builder returns the specified bytes, or the error naming the first header with a line break, or the one for no recipient |
| ReplyBuilder.BodyWithAttachments | squelch-api/src/gmail_write.rs:364-438 | The nested body written is the specified tree, levels without parts left out |
| ReplyBuilder.AlternativeText | squelch-api/src/gmail_write.rs:328-334 | Text part, html part and closing delimiter, as specified |
| ReplyBuilder.PushFiles | squelch-api/src/gmail_write.rs:407-434 | The files of one kind, and only those, pushed in tray order |
| ReplyBuilder.PickedAre | squelch-api/src/gmail_write.rs:380-390 | A file is among the inline ones, or among the others, exactly as its flag says |
| ReplyBuilder.ReplyReadsBack | squelch-api/src/gmail_write.rs:257-342 | Every accepted reply is read back as the documented tree: its address headers and no others, normalised text and html, inline parts in related, files in mixed, in tray order, every byte decoded |
| WhatArrives.ReplyHeaders | squelch-api/src/gmail_write.rs:282-297 | In every accepted reply, read back from its bytes, the recipient stands under `To`, the copies under `Cc`, the blind copies under `Bcc`, the subject and the threading ids under theirs: each once if it is there and not blank, not at all otherwise |
| WhatArrives.ForwardHeaders | squelch-api/src/gmail_write.rs:1905-1916 | The same for every accepted forward, without threading ids |
| WhatArrives.SentReplyHeaders | squelch-api/src/handlers.rs:4079-4092 | What a run sends carries the `to`, `cc` and `bcc` it chose, each under its own name, and the parent's ids when it answers a parent whose headers were read |
| WhatArrives.SentForwardHeaders | squelch-api/src/handlers.rs:4380-4392 | A sent forward carries the stated lists, each under its own name |
| WhatArrives.MemberHeaders | squelch-api/src/group_send.rs:273-290 | The mail a group member gets is to that member alone, with no copies and no threading |
| WhatArrives.FlaggedPicks | squelch-api/src/gmail_write.rs:380-434 | The files with a flag are exactly the positions of the tray that carry it, each once and in order |
| WhatArrives.ReplyContent | squelch-api/src/gmail_write.rs:298-438 | The content of every accepted reply: the text, or text and page as alternatives in that order; the inline files around it in related, the others around that in mixed, in tray order; the pixel at the end of the page |
| WhatArrives.ForwardContent | squelch-api/src/gmail_write.rs:1872-1935 | The content of every accepted forward: text and page as alternatives, every attachment around them in order |
| Reply.AttachedRead | squelch-api/src/gmail_write.rs:364-438 | The same for the body with attachments below any header stating its type |
| Delimiters.AttachedReplyDelimiters | squelch-api/src/gmail_write.rs:364-438 | In a whole reply with files, the lines beginning like a delimiter of a level are exactly the ones emitted there |
| Delimiters.PlainReplyDelimiters | squelch-api/src/gmail_write.rs:309-336 | The same for a reply without files |
| InlineImages.ReferenceSurvives | squelch-api/src/gmail_write.rs:139-157 | A reference in the rendered html still stands in the html part after wrapping and normalisation |
| InlineImages.InlineMeansReferenced | squelch-api/src/gmail_write.rs:301-306 | After marking, the parts inside related are exactly the files the html refers to |
| Html.ParagraphsHtml | squelch-api/src/gmail_write.rs:125-137 | The loop skips blank paragraphs and writes the others in order |
| Html.NormalizeKeeps | squelch-api/src/gmail_write.rs:301-306 | What a line holds, the normalised text still holds |
| ShownText.TextIsShown | squelch-api/src/gmail_write.rs:125-137 | Whatever a plain text holds, its html shows the paragraphs that are not blank, line by line and character by character, and no tag but the three the paragraphs are made of |
| ShownText.ParagraphsAre | squelch-api/src/gmail_write.rs:125-137 | Paragraphs are cut at every two line feeds in a row: put together they are the text, and none holds two in a row |
| ShownText.LinesAre | squelch-api/src/gmail_write.rs:125-137 | A line ends at its line feed, a carriage return before it taken off |
| ShownText.TrimmedIs | squelch-api/src/gmail_write.rs:125-137 | Around a paragraph line feeds come off and nothing else |
| Escaping.EscapeRoundTrip | squelch-api/src/gmail_write.rs:112-120 | Escaped text holds no angle bracket or quote, and unescaping shows the text it was |
| Escaping.EscapeIsOnePass | squelch-api/src/console.rs:144-157 | Five replacements in turn come to the one-pass escape the pages use |
| ForwardBuilder.BuildForward | squelch-api/src/gmail_write.rs:1856-1937 | The builder returns the specified bytes or the specified error |
| ForwardBuilder.TextPartText | squelch-api/src/gmail_write.rs:1274-1293 | The note, the block of quoted headers, `Cc` only when there was one, the text |
| ForwardBuilder.HtmlPartText | squelch-api/src/gmail_write.rs:1476-1525 | The html part with its escaped header block, stripped original and pixel |
| ForwardBuilder.RowsHtml | squelch-api/src/gmail_write.rs:1506-1519 | The loop over the labels skips an empty `Cc` and nothing else |
| QuotedBlock.BlockLines | squelch-api/src/gmail_write.rs:1264-1293 | The forwarded block is the banner, `From: `, `Date: `, `Subject: ` and `To: ` with the original's own values without line breaks, `Cc: ` if anybody was copied, an empty line and the lines of the text |
| QuotedBlock.TextPartLines | squelch-api/src/gmail_write.rs:1272-1293 | What a reader sees, whichever line ends it honours: the note's lines and a blank line, if there is a note, then those lines |
| QuotedBlock.HtmlPartIs | squelch-api/src/gmail_write.rs:1476-1525 | The html part: the note, the same headers in the same order behind bold labels, the stripped original or its text as paragraphs, the pixel last |
| QuotedBlock.HtmlRowIsText | squelch-api/src/gmail_write.rs:1499-1519 | A quoted header in the html part opens and closes no tag and unescapes to itself without line breaks |
| ForwardBuilder.AlternativeSection | squelch-api/src/gmail_write.rs:1833-1845 | The two encoded parts and the closing delimiter |
| ForwardBuilder.PushAll | squelch-api/src/gmail_write.rs:1930-1933 | Every attachment pushed in order, inline or not |
| ForwardBuilder.ForwardDelimiters | squelch-api/src/gmail_write.rs:1890-1935 | In a whole forward the lines beginning like a delimiter are exactly the ones emitted at that level |
| Forward.ForwardTakesZero | squelch-api/src/gmail_write.rs:1821-1830 | No forward ever bumps a boundary, whatever it quotes and whatever the hash |
| Forward.ForwardLinesAreTidy | squelch-api/src/gmail_write.rs:1872-1884 | No bare CR or LF anywhere in a forward, and only header lines are over 76 characters |
| Forward.QpPartRead | squelch-api/src/gmail_write.rs:1833-1843 | An encoded part is read back as its folded source, byte for byte |
| Forward.ForwardReadsBack | squelch-api/src/gmail_write.rs:1847-1937 | Every accepted forward is read back as alternative, or mixed with every attachment, both parts decoding to their CRLF-folded sources, with no threading header |
| CharsetMeta.FindTagEnd | squelch-api/src/gmail_write.rs:1361-1386 | The quote-aware scan for the end of a tag |
| CharsetMeta.StripCharsetMeta | squelch-api/src/gmail_write.rs:1308-1351 | The cursor loop ends and computes the strip |
| CharsetMeta.StripIsWithout | squelch-api/src/gmail_write.rs:1308-1351 | On a document seen as text and terminated tags, the strip drops the declaring tags and keeps every other character in order, an unterminated tag and all behind it verbatim |
| CharsetMeta.EveryDocument | squelch-api/src/gmail_write.rs:1308-1351 | Every text is such a document |
| CharsetMeta.StripRemovesOnlyCharsetTags | squelch-api/src/gmail_write.rs:1295-1351 | So for every text the output is the input with exactly its charset-declaring tags removed |
| TagScanner.ReadAttributes | squelch-api/src/gmail_write.rs:1404-1464 | The index loop computes the attribute list |
| TagScanner.WrittenTagAttributes | squelch-api/src/gmail_write.rs:1399-1464 | A tag written from attributes is scanned back as those attributes, whatever their values hold |
| TagScanner.OnlyNamesDeclare | squelch-api/src/gmail_write.rs:1388-1397 | A written tag is dropped if and only if it has an attribute named `charset`, or one named `http-equiv` that says `content-type` |
| TagScanner.LongerNamesStay | squelch-api/src/gmail_write.rs:1308-1345 | `<metadata` and other longer names are never dropped |
| TagScanner.WrittenTagEnd | squelch-api/src/gmail_write.rs:1353-1386 | It ends at its own `>`, not at one inside a value |
| CharsetSplice.SplicedTagSurvives | squelch-api/src/gmail_write.rs:1308-1351 | A family of inputs whose output is a charset-declaring tag that a second pass would remove |
| CharsetSplice.OutputIsMerged | squelch-api/src/gmail_write.rs:1308-1351 | The output read as a document is the input's with its declaring tags gone and the texts around them joined, if and only if no such join spells `<meta` |
| CharsetSplice.OneReading | squelch-api/src/gmail_write.rs:1308-1351 | A text is text and tags in one way only |
| CharsetSplice.OnePassIsEnough | squelch-api/src/gmail_write.rs:1308-1351 | Where no join spells `<meta`, no tag of the output declares a charset and a second pass changes nothing |
| CharsetSplice.SecondPass | squelch-api/src/gmail_write.rs:1308-1351 | For every text a second pass changes nothing if and only if no tag of the output declares a charset |
| CharsetSplice.CleanJoinsDoNotSplice | squelch-api/src/gmail_write.rs:1308-1351 | No dropped tag right behind a cut-short `<meta` is enough for no join to spell one |
| Addresses.TruncateAtInjectedHeader | squelch-api/src/gmail_write.rs:591-627 | The pass with quote flag, depth and token start computes the cut |
| Addresses.TruncatedIsHonest | squelch-api/src/gmail_write.rs:586-627 | What is left is a prefix without a top-level `word:`, the whole value exactly when there was none, and cutting again changes nothing |
| Addresses.ParseJoined | squelch-api/src/gmail_write.rs:531-582 | Emittable addresses joined into a header value are read again as themselves |
| Addresses.EmittableIs | squelch-api/src/gmail_write.rs:525-545 | An address passes if and only if it is two non-empty parts around its one `@`, with no white space, control or structure character |
| Recipients.DeriveReplyRecipients | squelch-api/src/gmail_write.rs:657-714 | The method with its seen-set computes the specified audience |
| Recipients.Copies | squelch-api/src/gmail_write.rs:697-708 | The loop keeps the first mention of everyone new |
| Recipients.FreshIsKept | squelch-api/src/gmail_write.rs:697-708 | The copies are exactly the positions of the list not seen before, in order |
| Recipients.ReplyAllConservesTheRoom | squelch-api/src/gmail_write.rs:635-714 | Everyone the parent addressed but the account is in `to` or `cc`; `cc` is an ordered, case-insensitively duplicate-free part of the list, disjoint from `to` and the account |
| Recipients.NobodyInvented | squelch-api/src/gmail_write.rs:657-714 | Every recipient stands in a header of the parent |
| Recipients.ReplyGoesTo | squelch-api/src/gmail_write.rs:635-676 | A plain reply goes to what the parent's `Reply-To` names, else to what its `From` names, and copies nobody |
| Recipients.OwnOfPadded | squelch-api/src/gmail_write.rs:662 | The account is recognised whatever the case of its address and the blanks around it |
| Recipients.OwnMessageIsPromoted | squelch-api/src/gmail_write.rs:680-695 | A reply-all goes where a plain reply would, unless that is the account alone and the parent's `To` names others: then to exactly those, in order, and the account is on no list |
| Recipients.ExcludedAreGone | squelch-api/src/gmail_write.rs:727-753 | The filtered value read back holds exactly the addresses in none of the other lists |
| SendAudience.WhoIsChosen | squelch-api/src/handlers.rs:3986-4038 | A stated `to` wins, then the derived one, then the stored sender, then, for blind copies alone, the account, and otherwise the send is refused; a stated `cc` stands |
| SendAudience.BlindMeansUnseen | squelch-api/src/handlers.rs:4039-4043 | Exactly the requested blind copies that are on neither visible list go out |
| SendAudience.DerivedCopiesGoOut | squelch-api/src/handlers.rs:4030-4038 | Without a stated `cc`, exactly the derived copies not in the chosen `to` are copied |
| SendAudience.PreviewIsSent | squelch-api/src/handlers.rs:3968-4038 | With nothing retyped, the derivation goes out as it is |
| SendAudience.ReplyAllReaches | squelch-api/src/handlers.rs:3986-4043 | A reply-all reaches everyone the parent addressed, except the account and whoever a retyped `to` replaces |
| EventFeed.StepKeeps | squelch-api/src/events.rs:98-173 | One step of anyone keeps the invariant |
| EventFeed.FramesAreExact | squelch-api/src/events.rs:98-173 | In every state of every run the frames are exactly the deliverable events in (start, cursor], strictly increasing |
| EventFeed.StartIs | squelch-api/src/events.rs:54-69 | Once begun, a connection's start is the id it gave, 0 for a negative one, and without one the head of the log at that moment, for good |
| EventFeed.LiveOnly | squelch-api/src/events.rs:54-69 | A connection without an id never sends an event that was in the log when it began |
| EventFeed.ReplaysFrom | squelch-api/src/events.rs:54-69 | One with an id sends nothing up to it and, once quiet, everything deliverable past it |
| EventFeed.NoLostWakeup | squelch-api/src/events.rs:147-173 | A parked connection with the head past its cursor has a wake or lag pending, or all those events are still between append and announcement |
| EventFeed.QuietMeansComplete | squelch-api/src/events.rs:189-223 | With the writers done and nothing pending, a parked connection has sent every deliverable event past its start |
| EventFeed.PumpStepsDecrease | squelch-api/src/events.rs:104-134 | Every step of the loop uses up a wake or brings the pump closer to its end |
| EventFeed.StuckMeansQuiet | squelch-api/src/events.rs:147-173 | The loop can only stop parked with nothing pending |
| EventFeed.LeftAloneItFinishes | squelch-api/src/events.rs:98-173 | Once everything is announced and only the loop steps, it takes no more steps than its budget, and where it can take no further one it is parked with every deliverable event past its start sent |
| EventFeed.SendBatch | squelch-api/src/events.rs:104-131 | One batch sent with the cursor advanced first, short exactly when the log is drained |
| EventFeed.Pump | squelch-api/src/events.rs:98-135 | Against a still log the pump ends with its cursor at the head and everything due sent |
| EventFeed.ResumeIsExact | squelch-api/src/events.rs:116-216 | What a client got up to a frame, and a new connection from that frame with its own permissions: together in order, no id twice, each event there exactly if it was due on its connection |
| EventFeed.ReconnectIsExact | squelch-api/src/events.rs:116-216 | The same over two runs, the second begun with the id of the last frame the client got of the first |
| EventFeed.ResumeLosesNothing | squelch-api/src/events.rs:208-216 | Where the permissions agree, that is what one unbroken connection sends |
| AgentSearch.Search | squelch-api/src/agent.rs:107-150 | The doubling loop ends, at the first window that is enough, and its answer is read off that window alone |
| AgentSearch.ClampIs | squelch-api/src/agent.rs:95 | 30 unless asked, 1 for less than that, 100 for more, what was asked in between |
| AgentSearch.VisiblePicks | squelch-api/src/agent.rs:131-135 | What may be shown of a window is exactly its allowed positions, each once and in order |
| AgentSearch.KeywordSearch | squelch-api/src/agent.rs:122-150 | Keyword search is the whole ranking filtered by access and then cut |
| AgentSearch.SemanticSearch | squelch-api/src/agent.rs:113-150 | Whatever order recency gives the windows: nothing hidden, nothing beyond the 4096 nearest, and an answer shorter than asked for holds every match among those that may be shown; in best-match order it is those filtered by access and then cut |
| AgentSearch.VotedIsNoCut | squelch-core/src/store/sqlite/search.rs:657-700 | A store with a fresher second-nearest message: its windows are cuts of no ranking, and the first window answers another hit than the widest |
| AgentSearch.HybridSearch | squelch-api/src/agent.rs:107-150 | Hybrid search shows nothing hidden, and an answer shorter than asked for holds every hit of the pool that may be shown, however ranks moved |
| AgentSearch.FusedCovers | squelch-core/src/store/sqlite/search.rs:484-560 | Two legs fused, cut and filtered: a flag that is down means every match of the 4096 nearest and of the words was in the window, and it goes down |
| RecallWalk.ServePage | squelch-api/src/handlers.rs:1403-1516 | The window-growing loop computes the specified page and next cursor |
| RecallWalk.UnfinishedComeFirst | squelch-api/src/handlers.rs:1496-1503 | Every unfinished candidate was served or stands before the first done hit of a page |
| RecallWalk.ServedInRankOrder | squelch-api/src/handlers.rs:1430-1503 | The hits of a page stand in the ranking of its window, unfinished among themselves and done among themselves, no done one ahead of an unfinished one |
| RecallWalk.NextPage | squelch-api/src/handlers.rs:1403-1513 | How wide the window is at least, exactly when there is a next cursor, and what it holds |
| RecallWalk.ServeKeeps | squelch-api/src/handlers.rs:1403-1513 | One page from a good cursor leaves a good cursor, whatever limit is asked |
| RecallWalk.EndMeansComplete | squelch-api/src/handlers.rs:1506-1513 | A page without a next cursor has served 600 ids in all or the whole pool |
| RecallWalk.WalkIsSafe | squelch-api/src/handlers.rs:1396-1516 | No walk serves an id twice, more than 600 ids, more than 601 pages, or done mail before every unfinished candidate |
| Base64Url.RoundTrip | squelch-api/src/handlers.rs:1241-1264 | The unpadded URL alphabet decodes to the bytes encoded |
| RecallCursor.CursorRoundTrip | squelch-api/src/handlers.rs:1241-1264 | A state with fewer than 600 non-negative i64 ids encodes to at most 16,015 of 16,384 characters and decodes to itself |
| RecallCursor.IssuedCursorsAreAccepted | squelch-api/src/handlers.rs:1241-1264 | Every cursor a page of a walk hands out is accepted as the state it was |
| RecallCursor.CursorWalkIsWalk | squelch-api/src/handlers.rs:1396-1516 | A whole walk driven by the cursor texts is the walk over the states: no cursor is ever refused, no id served twice, and it ends only at 600 ids or the whole pool |
| RecallCursor.OffsetRoundTrip | squelch-api/src/handlers.rs:60-73 | An offset cursor decodes to its offset, for every u32 |
| FanOut.RowsAddUp | squelch-api/src/group_send.rs:158-178 | Sent, failed and pending rows add up to the audience |
| FanOut.WalkIsTruthful | squelch-api/src/group_send.rs:204-253 | At both points of every step the rows never claim a mail not taken and miss at most the one under way and the ones whose write failed |
| FanOut.WalkedRows | squelch-api/src/group_send.rs:226-253 | A settled row says sent with Gmail's echo or failed with the reason; one whose write failed stays pending |
| FanOut.FinishedRun | squelch-api/src/group_send.rs:255-267 | A finished run leaves nothing pending and its sent rows number the mails taken, as the audit line says |
| FanOut.EveryPoint | squelch-api/src/group_send.rs:204-267 | With working writes the rows account for the audience at every point and are off by at most one |
| FanOut.GroupSends.Start | squelch-api/src/group_send.rs:164-202 | Pending rows first, then the job, other batches untouched; a batch that could not be recorded changes nothing and sends nothing; without a credential the rows are those just recorded with all pending ones failed, and only the start is audited |
| FanOut.GroupSends.Run | squelch-api/src/group_send.rs:210-267 | Every member attempted, each settled as it happens, other batches untouched, the counts audited; without a credential nothing is sent, exactly the pending rows fail, and other batches are untouched if and only if none of theirs was pending |
| FanOut.GroupSends.Settle | squelch-api/src/group_send.rs:303-330 | One recipient's row, and only it, takes the outcome if the write works |
| FanOut.GroupSends.FailPending | squelch-api/src/group_send.rs:213-223 | Every pending row of the account fails, no other row changes |
| FanOut.FailingKeepsToTheBatch | squelch-api/src/group_send.rs:213-223 | Failing what is pending leaves the other batches alone if and only if nothing of theirs is pending |
| FanOut.AnotherBatchFails | squelch-api/src/group_send.rs:213-223 | Two batches under way: giving up on one fails a recipient of the other |
| SendAction.NothingGoesBeforeAcceptance | squelch-api/src/handlers.rs:3709-3788 | The draft and files go, the parent is handled and the tracker linked only after Gmail took the mail or the batch started; the answer says sent exactly then |
| SendAction.OnlyConfirmedAndGuarded | squelch-api/src/handlers.rs:3675-3900 | Gmail is called and a batch started only when confirmed, with a credential, and with nothing found or the override written down first |
| SendAction.RefusedRunChangesNothing | squelch-api/src/handlers.rs:3790-4129 | Whatever step fails, a refused send leaves trackers, drafts, files and handled messages as they were, given working deletes |
| SendAction.TrackerEndsSomewhere | squelch-api/src/handlers.rs:3602-3663 | A minted tracker belongs to an accepted mail or a started batch, or is gone |
| SendAction.AcceptedRunLeaves | squelch-api/src/handlers.rs:3709-3788 | An accepted send leaves exactly its parent handled, its draft and files gone, its tracker linked to the echo |
| SendPaths.RefusedByTheFirst | squelch-api/src/handlers.rs:3790-4432 | A request is refused if and only if one of the listed checks fails, by the first that does, with its status and its audit line |
| SendPaths.BatchOrSingle | squelch-api/src/handlers.rs:3911-3923 | An accepted request is a batch if and only if its group is written to one by one, and then one of the group's size; any other group gets one mail |
| SendPaths.GroupIsStarted | squelch-api/src/handlers.rs:3911-3923 | A message to such a group is answered as a batch where nothing stands in the way |
| SendPaths.SentRunIs | squelch-api/src/handlers.rs:3745-3788 | An accepted single send does exactly the listed effects in that order: override, tracker, Gmail, parent, draft, files, outcome, link, group record |
| SendPaths.StartedRunIs | squelch-api/src/handlers.rs:4151-4215 | A started batch does exactly: override, tracker, batch, draft, files |
| SendPaths.PlainReplyGoesTo | squelch-api/src/handlers.rs:3968-4010 | A plain reply with nothing stated is sent to the parent's `Reply-To`, else its `From` |
| SendTokens.TokensOnTheWire | squelch-api/src/handlers.rs:3838-3852 | A recipient list an accepted send puts on the wire holds an unresolved token if and only if, for a single send, the stated `cc` or a `to` copied from the store does, for a fan-out, a member's address does |
| SendTokens.TokensInTheReply | squelch-api/src/handlers.rs:3838-4129 | Read back from the bytes of a sent reply or new message, its recipient headers hold a token exactly then |
| SendTokens.TokensInTheForward | squelch-api/src/handlers.rs:4249-4432 | Those of a sent forward, exactly when its stated `cc` does |
| SendTokens.TokenInCcIsSent | squelch-api/src/handlers.rs:3838-3852 | A confirmed new message to `a` with `#` stated as its `cc` is sent, and `#` is what its `Cc` says |
| SendTokens.TokenInParentIsSent | squelch-api/src/handlers.rs:3990-4004 | A bare reply to a parent with nobody in its headers and `#` as its stored sender is sent to `#` |
| SendTokens.HonestListIsRefused | squelch-api/src/group_send.rs:75-99 | A list of nothing but emittable addresses counts as holding a token if and only if one of them starts with `#` |
| SendTokens.HashAddressIsRefused | squelch-api/src/group_send.rs:75-99 | `#a@b` is emittable, and refused wherever it is the stated `to` or `bcc` |
| SendLedger.LedgerSaysWhatWent | squelch-api/src/handlers.rs:4100-4129 | The ledger holds an outcome line if and only if a single mail went, and then exactly that mail's |
| SendLedger.LedgerCountsTheBlind | squelch-api/src/handlers.rs:4043-4116 | A blind count stands there if and only if a reply or new message went with blind copies, and it is the number of requested ones on neither visible list |
| SendLedger.LedgerCountsTheRoom | squelch-api/src/handlers.rs:4043-4116 | The reply-all line stands there if and only if a reply-all went without blind copies; its number is that of the addresses on the mail if and only if `to` has one |
| SendLedger.LedgerMissesTheRest | squelch-api/src/handlers.rs:4101-4115 | A reply-all whose `to` was retyped to any list of addresses is sent to all of them and the ledger says one |
| SendLedger.LedgerCountsTheForward | squelch-api/src/handlers.rs:4403-4419 | The forward line stands there if and only if a forward went, with the numbers of its stated copies and blind copies |
| SendCompose.ReplyFitsIsAccepted | squelch-api/src/handlers.rs:4079-4099 | A run composes a reply exactly when the builder accepts the parts it is handed |
| SendCompose.ForwardFitsIsAccepted | squelch-api/src/handlers.rs:4380-4402 | A run composes a forward exactly when the builder accepts the parts it is handed |
| SendCompose.SentReplyReadsBack | squelch-api/src/handlers.rs:3919-4129 | Whatever is sent as a reply or new message is read back as the documented tree under the recipients the run chose |
| SendCompose.SentForwardReadsBack | squelch-api/src/handlers.rs:4249-4432 | Whatever is sent as a forward is read back as the documented tree under the recipients stated |
| SendDesk.Desk.MintTracker | squelch-api/src/handlers.rs:3612-3642 | The row first; no pixel when it could not be stored, and then no row has changed |
| SendDesk.Desk.DiscardTracker | squelch-api/src/handlers.rs:3652-3663 | Exactly the tracker's row gone when the delete works, nothing changed when it does not, the outcome audited |
| SendDesk.Desk.GuardVerdict | squelch-api/src/handlers.rs:3689-3717 | A refusal, or clearance with the override written down |
| SendDesk.Desk.FinishSend | squelch-api/src/handlers.rs:3745-3788 | Send, resolve, draft, files, audit, link in that order, the rows after it given exactly; on failure only the tracker is discarded |
| SendDesk.Desk.FanOutSend | squelch-api/src/handlers.rs:4151-4215 | Tracker, start, then draft and files, the rows after a start given exactly; a start that failed leaves the rows as they were, given working deletes |
| SendDesk.Desk.ForwardSend | squelch-api/src/handlers.rs:4249-4432 | One verdict over note and original, size and fetch refusals in order, nothing resolved |
| SendDesk.Desk.ReplySend | squelch-api/src/handlers.rs:3919-4129 | Parent, headers, audience, compose and send, with the refusals of each |
| SendDesk.Desk.ActionSend | squelch-api/src/handlers.rs:3790-4129 | The whole run does exactly the effects of the decision tree; refused it changes nothing, accepted it leaves what it should |

## Left out

- FanOut.GroupSends.Run: distinct addresses are required; what a repeated address does to its one row is not modelled.
- FanOut.WalkIsTruthful: a mail Gmail took but reported as failed counts as refused, since only the report is seen.
- SendAction.RefusedRunChangesNothing: holds for a run that reaches its answer; a request dropped half-way is not modelled.
- RecallCursor.CursorRoundTrip: the reader accepts the spelling the server issues; the other JSON spellings of the same state that the library accepts are not modelled.
- RecallWalk.WalkIsSafe: a walk starts without a cursor; a grouped search started from an offset cursor skips that many hits first.
- AgentSearch.HybridSearch: hybrid ranks may shift with the window, so a full answer is not compared with one fixed ranking.
- EventFeed.FramesAreExact: a frame counts when it is handed to the response channel; what the client's socket loses comes back on reconnecting, as `ResumeLosesNothing` says.
- The private wake channel of a server without a notifier: nothing appends events there.
- Attachments of a `multipart/…` type are sent under that type in base64, as the code does, and are read back as leaves.
- A panicking or slow store, timeouts, tokens and HTTP envelopes are I/O; each call is an answer of the model's world.
- `mail_parser`, the markdown renderer and the guard's patterns are libraries the model takes as parameters.
- The store's SQL, full-text and vector ranking: only fixed candidate pools and sound flags are used.
- `reply_subject`, `forward_subject`, `build_references` and the display-name quoting of forwards: single expressions.
- Hybrid and semantic search outside a grouped walk, and its diagnostics: one page per request, no state carried.
- Lower-casing is ASCII only, as in the code; nothing is claimed about Unicode case.
- The pages, cookies, devices, groups and console of the API, and the site and brand tooling.
