# RI expiration report — a Dafny model

This project models the core of an AWS Lambda function that reports reserved
capacity about to expire. It also proves properties of that model. The Lambda:

1. lists the reservations of five services: EC2, RDS, Redshift, ElastiCache
   and Elasticsearch;
2. keeps the active reservations that end within the next 31 days;
3. renders each service's list as an HTML table with the `End` column
   highlighted, and joins the five tables into one HTML document;
4. stores the document in S3 and mails it to every address of a mailing
   table.

Before building the report, it sends an SES verification request to every
recipient that is not already a ".com" identity.

The model is pure and functional:

- The reservation records are maps from field name to value. Timestamps and
  durations are whole seconds.
- "31 days from now" is a parameter `horizon` of each selection. The
  program reads the clock once for the EC2 block
  (src/ri_expiration.py:81) and again in each `getExpRIList` call
  (src/ri_expiration.py:67), so the report takes five horizons,
  one per service (`Report.Horizons`).
- Each place where the program would raise becomes a `Failure`:
  - indexing the first record of an empty response;
  - a missing field;
  - a non-timestamp start or duration;
  - selecting a column the table lacks.
- Failures abort the whole report: the first failing selection is the
  report's error, and nothing is archived or sent.
- The modules follow the program's structure:
  - `HtmlTable`: `getHTMLTable`, both as a layout of cells and as the loop
    method the source writes.
  - `HtmlParse`: a reader for the rendered HTML, used to state what a
    rendered table or document contains.
  - `Selection`: `getExpRIList` and the inline EC2 block.
  - `Report`: `makeMessage`, the recipient logic of `lambda_handler`, and
    `save_msg_to_s3`.
  - `Seqs` and `Wrappers`: a stable filter, substring search, `Option` and
    `Result`.

## Model

| member | source | states |
|---|---|---|
| `HtmlTable.LastIndex` | src/ri_expiration.py:166-172 | `end_column` after the header loop: -1 exactly when no header is "End", otherwise the LAST position holding "End" (later occurrences overwrite earlier ones) |
| `HtmlTable.HeaderRow` | src/ri_expiration.py:164-173 | the header loop builds the HTML of the header cells (`th`, red background exactly for "End") and leaves `end_column` at the last "End" position |
| `HtmlTable.DataRow` | src/ri_expiration.py:174-181 | the row loop builds one `td` per item, with the red background only at position `end_column`, whatever the row's length |
| `HtmlTable.WrapRows` | src/ri_expiration.py:182-183 | every collected row string is wrapped in `<tr>…</tr>`, in collection order |
| `HtmlTable.GetHTMLTable` | src/ri_expiration.py:162-185 | the loops of `getHTMLTable` produce exactly the rendering of the layout: title in `<h3>`, then the header row, then one row per data row in input order |
| `HtmlTable.LayoutShape` | src/ri_expiration.py:162-185 | the table has one header row plus one row per data row; header cells carry the header texts and are highlighted iff the text is "End"; data cells carry the items and are highlighted iff their position is the last "End" position |
| `HtmlTable.NoEndNoHighlight` | src/ri_expiration.py:166-180 | without an "End" header (`end_column` stays -1) no data cell is highlighted |
| `HtmlTable.HeaderOnlyTable` | src/ri_expiration.py:173-185 | with no data rows the table is the title and the header row alone |
| `HtmlParse.RenderTableRoundTrip` | src/ri_expiration.py:162-185 | when no title, header or item contains '<', reading the rendered table back gives exactly its layout (title, tags, highlights and texts) and nothing is left over |
| `Selection.WithEnd` | src/ri_expiration.py:71-72 | the derived `End` is `StartTime + Duration` (in seconds); an existing `End` is overwritten; every other field is unchanged |
| `Selection.Missing` | src/ri_expiration.py:75-76 | the selected columns the table lacks; empty exactly when every selected column is present |
| `Selection.GetExpRIList` | src/ri_expiration.py:63-76 | an empty response and a missing filter field are errors; it succeeds exactly when the filter, start and duration fields exist, the matching records' times are numbers and every selected column exists or is `End`; the header is the selected columns; a column error names only absent columns |
| `Selection.DerivedDue` | src/ri_expiration.py:68-73 | filtering the matching records on their derived `End` is the same as keeping the records that match and whose `StartTime + Duration <= horizon` |
| `Selection.GetExpRIListSelects` | src/ri_expiration.py:68-75 | the rows are exactly the records that match the filter and end by the horizon, inclusive, in input order, none missed; each row holds the record's selected fields, with the derived end in the `End` column |
| `Selection.Ec2ExpiringList` | src/ri_expiration.py:89-97 | the EC2 block fails on an empty response, a missing or non-timestamp `End`, or a missing column; otherwise it reports the six EC2 columns |
| `Selection.Ec2ExpiringListSelects` | src/ri_expiration.py:89-97 | the EC2 rows are exactly the records whose own `End` is at or before the horizon, in input order, each projected on the six EC2 columns |
| `Report.MakeMessage` | src/ri_expiration.py:81-158 | the five selections each compare with their own horizon; the report is built exactly when all five selections succeed; otherwise the error is that of the first failing selection in program order; on success it is the document of the five sections |
| `Report.DocumentRoundTrip` | src/ri_expiration.py:135-158 | the document is the fixed head, the sections' tables in order, then `</body></html>`; when no title, column name or written cell contains '<', reading it back gives exactly the sections' layouts |
| `Report.SectionsReadBack` | src/ri_expiration.py:135-158 | five successful selections whose written cells hold no '<' make a document that reads back as five tables titled EC2, RDS, Redshift, ElastiCache, ElasticSearch, in that order, each headed by its service's columns, with one data row per reported reservation |
| `Report.MakeMessageSections` | src/ri_expiration.py:95-158 | when no record field and no number is written with a '<', a successful report reads back as the five titled sections in document order, each headed by the service's column list, with one data row per expiring reservation |
| `Report.StringShowPlainRecords` | src/ri_expiration.py:176-180 | for a cell writer that writes a string as itself, as `"{}".format` does, the read-back condition on records asks only that their string fields hold no '<' |
| `Report.GetExpRIListPlain` | src/ri_expiration.py:68-76 | every cell `getExpRIList` reports is a field of a matching record or a derived end, so records and numbers written without '<' give cells without '<' |
| `Report.Ec2ExpiringListPlain` | src/ri_expiration.py:89-97 | every cell the EC2 block reports is a field of a record, so records written without '<' give cells without '<' |
| `Report.ComIdentities` | src/ri_expiration.py:201 | the kept SES identities are exactly those containing ".com" |
| `Report.VerificationTargets` | src/ri_expiration.py:199-203 | one verification request per list entry that is not a ".com" identity, in list order, repeated entries included (the i-th request is the entry at the i-th such position); an address gets one exactly when it is listed and not a ".com" identity |
| `Report.NonComIdentityIsReverified` | src/ri_expiration.py:201-203 | an address already registered as an identity is still sent a request when it does not contain ".com" |
| `Report.EmailList` | src/ri_expiration.py:197 | the scan yields one address per item, in order, each the item's `email.S`; it fails exactly when some item lacks it |
| `Report.SendJobs` | src/ri_expiration.py:214 | one send job per recipient entry, in order, each carrying the same message |
| `Report.Deliver` | src/ri_expiration.py:188-214 | a failed report stores and sends nothing; otherwise the document is stored in bucket `ri-exp-contents` under the date prefix followed by `ri_exp.html`, and every recipient gets a job with that document |
| `Report.Handler` | src/ri_expiration.py:193-214 | a scan item without `email.S` aborts the run before anything is sent; otherwise one address per item, the verification requests of `VerificationTargets` whatever becomes of the report, and the delivery of the report to those addresses |
| `Seqs.Contains` | src/ri_expiration.py:201 | Python's substring test `t in s`: true exactly when `t` occurs at some position of `s` |

## Left out

- The AWS SDK calls become plain parameters or data. These are the five
  `describe_*` calls, the DynamoDB scan, `list_identities`,
  `verify_email_address`, `put_object` and `send_email`.
- `send_email` (the SES message with subject, charset and text body) is not
  modelled, because it only forwards the job to the service.
  `SendJobs` models which jobs exist.
- The multiprocessing `Process` start and join are left out because they
  are concurrency. The jobs are a sequence.
- `ClientError` handling around `verify_email_address` is left out. It only
  prints; the model lists the requests issued.
- The wall clock becomes parameters. Each reading of `utcnow() + 31 days`
  is one field of `Horizons`, and `today().strftime("%Y/%m/")` is
  `datePrefix`.
- pandas timestamp parsing and time-zone conversion are left out.
  Timestamps are integer seconds in one time zone, and durations whole
  seconds. A start or duration that is not a number is `NotATimestamp`.
- Cell stringification (`str.format` of a value) is the parameter `show`. Its
  text is inserted verbatim: the source escapes nothing.
- Printing ("Exist …", message IDs) is left out, as is the region and
  sender configuration.
- Mixed field sets across records are not modelled. The source lines each
  record's values up under the FIRST record's field names, which only makes
  sense when every record has the same fields. `UniformSchema` and
  `UniformResponses` are therefore preconditions.
- The state filter of the EC2 request runs server-side. It is not modelled:
  the EC2 records given are those the service returned.
- An SDK error in a later `describe_*` call is not modelled. Only the
  selection errors are.
- GetExpRIList: when no record matches the filter, pandas would most likely
  raise on `tz_convert` of an empty, time-zone-naive column. The model
  reports an empty listing instead, because pandas' behaviour here is outside
  the model.
- HtmlParse.RenderTableRoundTrip: stated only for texts without '<'. With
  unescaped markup in a cell the HTML is ambiguous. The document read-back
  lemmas carry the same condition, on the cells actually written.
