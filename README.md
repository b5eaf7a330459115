# VendorScrapper decision logic in Dafny

This project models the sequential decision and bookkeeping logic of a vendor
scraper and mailer written in JavaScript (Node.js, Playwright, nodemailer). It
covers three source files:

- `util.js`. A folder is listed and filtered by extension (`getFilesFromFolder`,
  `getFilesByType`), files are kept only if they changed recently
  (`getRecentFiles`), and file records are projected to mail attachments
  (`filesToAttachments`).
- `emailService.js`. Attachments get a size budget: a per-file limit of 15 MiB and
  a per-message limit of 20 MiB, applied greedily to folder files
  (`getAttachmentsWithSizeCheck`) and to caller-supplied attachments
  (`sendEmailWithFolderAttachments`). Files are sorted largest first and packed
  into batches (`createBatches`), and each batch is mailed as "Part i of n"
  (`sendInBatches`). Two classifiers describe a folder: `getSizeRecommendation`
  and `getFolderSizeSummary`. `sendSmallFilesOnly` attaches only the files under
  a size limit and notes how many it left out.
- `proxyBrowser.js`. This is the anti-automation logic of a page visit:
  - the block verdict (`detectBlock`);
  - the size-option auto-picker (`isSelectSize`, `autoClickSizeIfNeeded`);
  - which popup close buttons get clicked (`closePopups`);
  - the proxy choice (`resolvePlaywrightProxy`);
  - the direct-then-proxy retry (`openUrlPlayWright` around
    `openUrlWithPlaywright`).

The file system, the browser page, the SMTP transport and the clock are all
replaced by input values:

- a `Folder` of `DirEntry` records for what `existsSync`, `statSync` and
  `readdirSync` report;
- `PageFacts`, `NavResponse`, `SelectMeta`, `Element` and `CustomControls` for
  what the page answers;
- `connected` and `TransportReply` for what the SMTP transport answers;
- `now` for `Date.now()`.

Each pattern test of the source is modelled with a small regular-expression
matcher (module `Regex`). It covers literals, `\s*`, `[0-9a-f-]{n,}`, `\b`, `^`,
`$`, alternation and the `i` flag. `test` is defined as "some match exists".

Modules, one per file: `Wrappers`, `Text` (JavaScript white space, `trim`, ASCII
lower-casing, decimal rendering), `Regex`, `FileUtils`, `EmailSizeCheck`,
`EmailBatches`, `EmailSummary`, `BlockDetector`, `SizePicker`, `Popups` and
`PlaywrightRetry`.

Two facts about the code shape the retry model:

- A blocked direct attempt returns `undefined`. Reading `pw.blocked` on it throws
  a TypeError, and the `catch` turns that into the retry. So a blocked page leads
  to exactly one retry through the proxy, the same as a thrown attempt.
- No browser or context is ever closed: the `finally` block of
  `openUrlWithPlaywright` is empty, and a blocked page only gets `page.close()`.
  No closing property is claimed.

## Model

| member | source | states |
|---|---|---|
| `FileUtils.Extname` | util.js:49 | The extension is empty or a proper suffix of the name that starts with '.' and holds no other dot (`path.extname` of a slash-free entry name). |
| `FileUtils.ExtnameOf` | util.js:49 | A name `base.suffix` with a non-empty base has the extension `.suffix`. |
| `FileUtils.GetFilesFromFolder` | util.js:24-74 | The loop returns exactly `Listing`: `[]` for an empty path, a missing (or uncreatable) path, a non-directory or an unlistable folder; otherwise one record per kept entry, in listing order. |
| `FileUtils.CollectAppend` | util.js:42-66 | Each entry is judged on its own, and the output keeps listing order: the result for `a + b` is the result for `a` followed by the result for `b`. |
| `FileUtils.UnreadableEntrySkipped` | util.js:45-65 | An entry whose `statSync` throws drops out and leaves the records of the entries around it unchanged. |
| `FileUtils.CollectSound` | util.js:48-61 | Every listed record comes from an entry (the witness index is returned) that can be stat'ed, is a regular file and passes the extension test, and it is that entry's record. |
| `FileUtils.CollectComplete` | util.js:48-61 | Every entry that can be stat'ed, is a regular file and passes the extension test has its record listed. |
| `FileUtils.CollectMembers` | util.js:48-61 | A record is in the result iff it comes from an entry that can be stat'ed, is a regular file, and has its extension, ASCII-lower-cased, in the list (or the list is empty). |
| `FileUtils.EmptyFilterKeepsEveryFile` | util.js:53 | With an empty extension list, every readable regular file is listed. |
| `FileUtils.UpperCaseFilterKeepsNothing` | util.js:49-53 | The list is not lower-cased, so a non-empty list whose every entry has an upper-case letter ('.PDF') keeps nothing. |
| `FileUtils.DefaultTypesAcceptUpperCaseName` | util.js:94-96 | A file named "Scan.PDF" passes the default list, because its extension is lower-cased before the lookup. |
| `FileUtils.FilesToAttachments` | util.js:81-86 | The projection keeps length and order and carries `filename` and `path` unchanged. |
| `FileUtils.FilesToAttachmentsAppend` | util.js:81-86 | The projection distributes over concatenation. |
| `FileUtils.GetFilesByType` | util.js:94-96 | The result is the listing filtered by the given types, or by the default list ['.pdf', '.doc', '.docx', '.xlsx', '.jpg', '.png', '.txt'] when the argument is omitted. |
| `FileUtils.ModifiedAfter` | util.js:108 | A file is kept iff it is in the input and its mtime is strictly after the cutoff. |
| `FileUtils.GetRecentFiles` | util.js:104-109 | `hours` defaults to 24. When the cutoff `now − hours·3,600,000` ms is a valid `Date`, the result is the unfiltered listing, in order, restricted to files with a valid modification time strictly after the cutoff: every such file is kept and no other. An out-of-range cutoff is an Invalid Date and keeps nothing. |
| `EmailSizeCheck.Admit` | emailService.js:58-77 | A file is refused for the per-file limit iff it is over 15 MiB, whatever the running total. It is accepted iff it is within 15 MiB and the total plus its size stays within 20 MiB. |
| `EmailSizeCheck.CheckSizes` | emailService.js:52-87 | The loop yields exactly the greedy accepted list, the rejected list with reasons and the running total. |
| `EmailSizeCheck.GetAttachmentsWithSizeCheck` | emailService.js:46-99 | An empty path gives the empty result. The call rejects (`None`) exactly when the path is non-empty and creating the missing folder throws. Otherwise the result is the greedy budget of the folder listing. |
| `EmailSizeCheck.EveryFileLandsOnce` | emailService.js:56-87 | `|attachments| + |oversizedFiles| = |files|`. |
| `EmailSizeCheck.TotalIsAcceptedSum` | emailService.js:69-86 | `totalSize` is the sum of the accepted sizes and never exceeds 20 MiB. |
| `EmailSizeCheck.LimitsRespected` | emailService.js:58-76 | Every accepted file is within 15 MiB. A rejection's reason is the per-file limit iff the file is over 15 MiB. |
| `EmailSizeCheck.GreedyExample` | emailService.js:69-84 | With files of 12, 12 and 5 MiB, the second is refused for the total and the third is still accepted. |
| `EmailSizeCheck.FittingFolderAcceptsAllSmallFiles` | emailService.js:56-87 | When the whole folder fits in 20 MiB, every file within 15 MiB is accepted. |
| `EmailSizeCheck.AddAdditionalAttachments` | emailService.js:138-157 | The loop returns the kept attachments and the running total given by their specification functions. |
| `EmailSizeCheck.AdditionalBudget` | emailService.js:138-157 | Starting within 20 MiB, the total stays within 20 MiB. An attachment whose size cannot be read is kept and adds nothing. A readable kept one is within 15 MiB. |
| `EmailSizeCheck.SendEmailWithFolderAttachments` | emailService.js:105-206 | A failed connection check gives the SMTP error. A folder that cannot be created gives a failure carrying the `mkdirSync` error. The "total exceeds limit" error never occurs. Otherwise a refused send reports the transport's message, and a delivered send reports the transport's message id and response, the folder's accepted names followed by the kept additional ones, their count, the budgeted total (at most 20 MiB) and the rejected folder files. |
| `EmailBatches.SortBySize` | emailService.js:304 | The result is sorted by size, descending, and is a permutation of the input. |
| `EmailBatches.SortIsStable` | emailService.js:304 | The sort is stable: for every size, the files of that size keep their input order. |
| `EmailBatches.CreateBatches` | emailService.js:298-325 | Concatenating the batches gives the files sorted by size, descending, which hold exactly the input files counted with multiplicity. No batch is empty. A batch of two or more files is within the limit. Each batch was closed only because the next file would pass the limit. Empty input gives `[]`. |
| `EmailBatches.Pack` | emailService.js:306-322 | The greedy packing of an already sorted list flattens back to it and has the greedy batch shape. |
| `EmailBatches.PackStep` | emailService.js:306-317 | One file either closes the open batch and opens a new one (it would pass the limit and the open batch is non-empty) or joins the open batch. Either way the loop invariant is kept. |
| `EmailBatches.LargeFileAlone` | emailService.js:307-316 | A file larger than the limit sits alone in its batch. |
| `EmailBatches.PartSubjectsDistinct` | emailService.js:280 | "subject (Part i of n)" subjects of one mailing are distinct for distinct parts. |
| `EmailBatches.PrepareParts` | emailService.js:272-287 | One message per batch, numbered from 1. Each carries the part subject, the batch's attachments, its file count and its byte size. |
| `EmailBatches.SendInBatches` | emailService.js:264-290 | `batchSizeMB` defaults to 15. The unfiltered folder listing is batched greedily under `batchSizeMB·1024·1024` bytes, with nothing lost or duplicated (no batches iff no files), and each batch is prepared as its numbered part. |
| `EmailSummary.Oversized` | emailService.js:335 | Exactly the files over 15 MiB. |
| `EmailSummary.Sendable` | emailService.js:340-341 | Exactly the files within 15 MiB. |
| `EmailSummary.SplitByLimit` | emailService.js:236-237 | At any byte limit, the files over it and the files within it partition the folder, both in count and in bytes. |
| `EmailSummary.SplitBySize` | emailService.js:334-342 | The oversized and sendable files partition the folder, both in count and in bytes. |
| `EmailSummary.SizeRecommendation` | emailService.js:356-368 | "Split" iff the total is over 20 MiB, with ⌈total / 15 MiB⌉ batches (at least 2). This takes priority over the large-file message. Otherwise "small files only" iff some file is over 15 MiB; otherwise "one email". |
| `EmailSummary.OneEmailAcceptsEverything` | emailService.js:365-366 | When the recommendation is "one email", the greedy size check accepts every file. |
| `EmailSummary.AcceptedAtMostSendable` | emailService.js:340 | The greedy check never accepts more files than the summary calls sendable. |
| `EmailSummary.Summarize` | emailService.js:332-349 | `totalFiles = |files|` and `sendableFiles = totalFiles − oversized count`, with the byte totals to match. It also carries the oversized names and the recommendation. |
| `EmailSummary.FolderSizeSummary` | emailService.js:332-349 | The summary of the unfiltered listing. An empty path gives zero files and "one email". |
| `EmailSummary.SendSmallFilesOnly` | emailService.js:233-253 | `maxSizeMB` defaults to 10 and `bodyText` to "Please find the attached files.". The attachments are the listed files of at most `maxSizeMB` MiB, in order; the excluded count is the number of larger files, and the two add up to the listing. The subject gains "(Files under N MB)", and the body gains the exclusion note iff some file was excluded. |
| `EmailSummary.SmallAttachmentsFit` | emailService.js:236-241 | Every small-file attachment is a listed file within the limit. |
| `EmailSummary.DefaultSmallFileMBText` | emailService.js:233 | The default limit renders as "10". |
| `BlockDetector.LowerHeadersKeys` | proxyBrowser.js:127-130 | Every header name is present lower-cased. Every key comes from a header with that value. A later header with the same lower-cased name wins. |
| `BlockDetector.HintCount` | proxyBrowser.js:152-167 | There are at most two soft hints. |
| `BlockDetector.DetectBlock` | proxyBrowser.js:124-179 | The mutable-score procedure returns exactly the verdict `Blocked`. |
| `BlockDetector.BlockingStatusWins` | proxyBrowser.js:133 | Status 401, 403, 407, 429 or 503 blocks, whatever the body, title or headers say. |
| `BlockDetector.MissingStatusIsZero` | proxyBrowser.js:126 | A missing response or status reads as 0, which is not a blocking status. |
| `BlockDetector.HardTextBeatsContent` | proxyBrowser.js:139-149 | A hard text signal or a blocking title blocks, even on a content-rich page. |
| `BlockDetector.SoftScore` | proxyBrowser.js:152-178 | Without a decisive signal, blocked iff `max(0, text hint + header hint − hasRealContent) ≥ 1`. |
| `BlockDetector.NoHintsNotBlocked` | proxyBrowser.js:152-178 | With no decisive signal and no hint, the page is never blocked. |
| `BlockDetector.TwoHintsBlock` | proxyBrowser.js:152-178 | Both hints block, even a content-rich page. |
| `BlockDetector.OneHint` | proxyBrowser.js:169-178 | A single hint blocks iff the page has no real content. |
| `BlockDetector.HeaderNameCaseIgnored` | proxyBrowser.js:127-159 | A header whose name lower-cases to `cf-ray` (e.g. `CF-Ray`) is a header hint. |
| `BlockDetector.AccessDeniedPage` | proxyBrowser.js:139-148 | A body reading "Access Denied" is blocked, whatever the status or content. |
| `Regex.HexRunMatches` | proxyBrowser.js:144 | `[0-9a-f-]{n,}` matches wherever `n` hexadecimal digits or dashes follow. |
| `BlockDetector.ReferenceIdTail` | proxyBrowser.js:144 | `#\s*[0-9a-f-]{6,}` matches at a '#' followed by white space and six hexadecimal digits or dashes. |
| `BlockDetector.ReferenceIdAt` | proxyBrowser.js:144 | The whole pattern `reference\s*#\s*[0-9a-f-]{6,}` matches where "reference" in any case and white space precede a matching tail. |
| `BlockDetector.ReferenceIdHard` | proxyBrowser.js:139-148 | A match of the reference-id pattern at any position makes the body a hard signal. |
| `BlockDetector.ReferenceIdPage` | proxyBrowser.js:144-148 | Every body of the form text, "reference" in any case, white space, "#", white space, six or more hexadecimal digits or dashes in any case, text is blocked, whatever the status or content. |
| `SizePicker.ReplaceNbsp` | proxyBrowser.js:225 | Every no-break space becomes a space, and every other character is kept. |
| `SizePicker.NbspReplacementRedundant` | proxyBrowser.js:225 | `isSelectSize` gives the same answer with or without the no-break-space replacement. |
| `SizePicker.NativeSelect.PickFirstAvailable` | proxyBrowser.js:266-280 | The index picked is the first option that is not disabled, not sold out or unavailable ("text aria") and not a placeholder. Its value is assigned to the select. With none, the select is unchanged. |
| `SizePicker.Plan` | proxyBrowser.js:240-317 | Only the first readable size-like select is acted on: its first acceptable option is picked, or with none it is opened. When no select qualifies, a role-button, combobox or size-text control is clicked iff one is found; otherwise an aria/data size control is clicked iff one is found. |
| `SizePicker.AutoClickSizeIfNeeded` | proxyBrowser.js:235-318 | The action is the plan's. The result is `true` iff some control was acted on. Only the picked select's value changes. |
| `SizePicker.NothingOnlyWhenNoControl` | proxyBrowser.js:282-317 | `false` iff no select looks like a size control and every fallback finds nothing. |
| `SizePicker.PlaceholderOption` | proxyBrowser.js:273 | "Select Size" is a placeholder option. |
| `SizePicker.PicksFirstAvailableSize` | proxyBrowser.js:266-280 | Options [Select Size, S (disabled), M, L] give M, whatever L is. |
| `Popups.SelectorClicks` | proxyBrowser.js:29-45 | The first pass makes no more clicks than there are selectors. |
| `Popups.TextClicks` | proxyBrowser.js:48-65 | The text pass makes at most one click. |
| `Popups.FinalClicks` | proxyBrowser.js:67-85 | The close-icon and "Accept All" block makes at most two clicks. |
| `Popups.ClosePopups` | proxyBrowser.js:16-86 | The clicks are the selector pass, then the text pass, then the final block, in order. |
| `Popups.SelectorPass` | proxyBrowser.js:29-45 | The nested loops with the inner `break` produce exactly `SelectorClicks`. |
| `Popups.TextPass` | proxyBrowser.js:48-65 | The loop with the outer `break` produces exactly `TextClicks`. |
| `Popups.OnePerSelector` | proxyBrowser.js:29-45 | Each selector gets at most one click, and gets one iff some matched element is visible and its click succeeds. |
| `Popups.SelectorClicksVisible` | proxyBrowser.js:33-39 | Every first-pass click is on a matched, visible element. |
| `Popups.WholeTextExact` | proxyBrowser.js:52 | For an unpadded word, `^\s*word\s*$` with `i` matches iff the trimmed text is the word up to case. |
| `Popups.TextClickMatchesWholeText` | proxyBrowser.js:48-65 | The text pass clicks at most one element, a visible one whose whole trimmed text is a fallback phrase up to case. |
| `PlaywrightRetry.ResolveProxy` | proxyBrowser.js:103-122 | No proxy without `useProxy`. With it, a proxy iff server, username and password are all set, carrying them unchanged. |
| `PlaywrightRetry.OpenUrlWithPlaywright` | proxyBrowser.js:367-433 | The browser is launched with the resolved proxy. The attempt throws on a navigation failure, returns `undefined` on a blocked page, and otherwise returns the unblocked result with its status. |
| `PlaywrightRetry.OpenUrlPlayWright` | proxyBrowser.js:465-489 | There are one or two launches, the first without a proxy. The direct result is returned iff it is usable. Otherwise exactly one retry with `useProxy = true` runs, and its outcome is returned unchanged. |
| `PlaywrightRetry.ReturnedIsUsable` | proxyBrowser.js:479 | A returned direct result is never blocked and never has a blocking status, so the status test cannot fire on its own. |
| `PlaywrightRetry.RetryExactlyWhenBlockedOrFailed` | proxyBrowser.js:475-488 | The retry runs iff the direct attempt threw or met a blocked page. |

## Left out

- The multi-target crawl orchestrator, `index.js` (HTTP routes, browser launch, health check), `install-browsers.js` and `emailConfig.js` are not part of this model. Credentials are never reproduced: the proxy configuration is a parameter.
- nodemailer transport creation, `verify` and `sendMail` are inputs (`connected`, `TransportReply`), not modelled.
- The send wrappers `sendFolderContents`, `sendSpecificFileTypes`, `sendRecentFiles`, `sendAndArchive` and `sendAndCleanup` are left out: they only forward to the modelled functions and perform I/O. `sendAndArchive` and `sendAndCleanup` move or delete every listed file of the folder after a successful send, including files the size check did not attach; that file-system step is not modelled.
- `EmailSummary.SendSmallFilesOnly`: the message is modelled up to the send. Its `html` rendering of the body, the send itself and the log line are left out, and `maxSizeMB` is an integer, so a fractional limit is not modelled.
- The actual sending of each batch of `sendInBatches` is left out.
- `moveFiles` and `deleteFiles` are left out: these are file-system side effects. `ensureFolderExists` is modelled only through its outcome inside `getAttachmentsWithSizeCheck`: a folder it creates lists as empty, which is what a missing folder gives, and a creation that throws is the `Uncreatable` folder.
- `FileUtils.CollectMembers`, `FileUtils.Included`, `FileUtils.GetFilesFromFolder` and `FileUtils.Info`: the extension is lower-cased with ASCII folding only, while `toLowerCase` folds all of Unicode. A name such as "x.Ä" yields ".Ä" here and ".ä" in the source, so such a file is kept or dropped differently by a filter that lists ".ä".
- `FileUtils.GetRecentFiles`: `hours` is an integer. A fractional number of hours, which JavaScript accepts and `new Date` truncates after the multiplication, is not modelled, and neither is a non-numeric argument.
- `EmailBatches.SendInBatches`: `batchSizeMB` is an integer, so a fractional megabyte limit is not modelled. The sending of each batch, its body text and its `formatFileSize` figures are left out.
- `Popups.ClosePopups`: `page.$$(selector)` runs outside the per-button `try`, so if it throws, `closePopups` rejects at once and skips the remaining selectors, the text pass and the final block. The model always runs every pass.
- `formatFileSize` is left out: it uses floating-point `Math.log`, `Math.pow` and `toFixed`. Sizes stay in bytes, and the summary and log texts that embed it are not modelled.
- `FileUtils.Join` leaves out Node's normalisation of "." and ".." segments, and `Extname` covers only slash-free names (directory entries).
- `fs.statSync` on the folder path itself is taken not to throw. Each entry's stat is an input.
- All browser work is left out: Playwright and Selenium calls, `createStealthBrowser`, `addStealthScripts`, `openUrlInChromium`, navigation, screenshots, style capture, `page.content`.
- Waits and timeouts are left out: `waitForAnyChange`, settle delays, `Promise.race`. They are timing behaviour; the model keeps only the outcome.
- `closePopupsAll` and `hoistAllOpenDropdownsBeforeAddTo` are left out: they mutate the live DOM based on computed style, and the hoist's result is discarded by its caller.
- The regular-expression engine is a small matcher for the constructs these patterns use. Case folding is ASCII only, which is exact for these ASCII patterns.
- `SizePicker.AutoClickSizeIfNeeded`: an in-page exception while picking an option (the `.catch(() => null)` on the pick) is not modelled. That case behaves like "nothing to pick", and the select is opened.
- `SizePicker.AutoClickSizeIfNeeded`: the custom-control fallbacks (role button, combobox, text, aria/data) are inputs that say whether each locator finds an element. Their Playwright name matching is not modelled.
- `BlockDetector.DetectBlock`: the two reads of `document.body.innerText` are taken to agree. Playwright's `hasText` and `isVisible` semantics are inputs of `Popups`.
- Failures inside `page.close()` and `waitForTimeout` are not modelled.
