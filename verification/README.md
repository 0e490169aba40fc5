# Club management: a verified model

This project models the core of a small Flask club-management application.
Members register with a unique email and an optional profile image. Events are
created with a title, a description and a date. Members join events through the
`participation` association table, and photos are uploaded into an event's album.

The model has six Dafny modules:

- `Upload` (`upload.dfy`) holds `allowed_file`: the image-extension allow-list.
- `DatabaseUrl` (`database_url.dfy`) holds the rewrite of `DATABASE_URL` from the
  legacy `postgres://` scheme, with its SQLite fallback.
- `Models` (`models.dfy`) holds the rows of models.py as datatypes, the table
  constraints as predicates, the `__repr__` formats, and the two relationship views
  (`event.participants`, `member.events`) of the one `participation` table.
- `Queries` (`queries.dfy`) holds the read-only ORM queries: first match, available
  members, and the `Event.date.desc()` orderings with the home page's `limit(5)`.
- `Store` (`store.dfy`) holds the class `Club`. Its fields are the tables, and its
  invariant `Valid()` is the schema's constraints. It has one method per route handler.
  The POST methods change the tables and say exactly what the new tables are. The GET
  methods only read.
- `Wrappers` (`wrappers.dfy`) holds `Option`, which stands for Python's `None`.

Modelling choices:

- Nullable-false columns (member name and email, event title and date) are plain
  Dafny values, so they are always present.
- `Photo` and `Member.profile_image` are used by app.py but are not declared in
  models.py. A photo is modelled as (saved filename, owning event id) and the profile
  image as an optional string.
- Flash messages become outcome tags. An unknown event id, which `get_or_404` turns
  into a not-found response, is the outcome `EventNotFound` and changes nothing.
- A refused upload extension shows no message. For a photo nothing is stored; for a
  member the member is still created, without an image (app.py:52-62, 103-114).
- `str.lower()` is modelled as ASCII lower-casing. This gives the same verdict for
  the allow-list: only `P N G J E I F` lower-case to a single letter of
  `png/jpg/jpeg/gif`. Other characters whose lower case is ASCII (such as the Kelvin
  sign) map to letters outside those words, or to more than one character.

## Model

| member | source | states |
|---|---|---|
| `Upload.Lower` | app.py:29 | `.lower()` keeps the length and lower-cases each character |
| `Upload.AfterLastDot` | app.py:29 | `rsplit('.', 1)[1]` is the suffix that follows a '.' and contains no '.' |
| `Upload.LastDotIsUnique` | app.py:29 | any '.' followed by dot-free text is the last '.', so the split suffix is unique |
| `Upload.AllowedFileIff` | app.py:22-29 | a filename is accepted iff some '.' is followed by dot-free text whose lower case is png, jpg, jpeg or gif |
| `Upload.AllowedFile` | app.py:22-29 | `allowed_file`: an accepted filename contains a '.', and the text after its last '.' has three or four characters, as every allowed extension does |
| `Upload.RejectsTextFile` | app.py:28-29 | `photo.txt` is refused |
| `Upload.RejectsNameWithoutExtension` | app.py:28-29 | `noext` is refused |
| `Upload.AcceptsUpperCaseExtension` | app.py:28-29 | `a.JPG` is accepted |
| `Upload.AcceptsLastExtensionOnly` | app.py:28-29 | `x.tar.gif` is accepted: an earlier extension is ignored |
| `Upload.RejectsEarlierExtension` | app.py:28-29 | `x.gif.tar` is refused: only the last extension counts |
| `DatabaseUrl.ReplaceFirst` | app.py:15 | `replace(old, new, 1)` on a string that starts with `old` swaps that prefix and keeps the remainder |
| `DatabaseUrl.ConfiguredUrl` | app.py:13-17 | unset or empty gives `sqlite:///events.db`; a `postgres://` URL becomes `postgresql://` plus the same remainder; any other URL is unchanged; the result is never empty and never has the legacy scheme |
| `DatabaseUrl.RewrittenIsNotLegacy` | app.py:14-15 | a rewritten URL no longer starts with `postgres://` |
| `DatabaseUrl.ConfiguredUrlIdempotent` | app.py:13-17 | applying the configuration twice equals applying it once |
| `Models.NotAfterTotal` | app.py:38 | any two event dates are ordered one way or the other, so `order_by(date)` is defined |
| `Models.NotAfterTransitive` | app.py:38 | the date order is transitive |
| `Models.MemberRepr` | models.py:20-21 | a member prints as `<Member ` + name + `>` |
| `Models.EventRepr` | models.py:33-34 | an event prints as `<Event ` + title + `>` |
| `Models.ReprsIdentify` | models.py:20-34 | two members print alike iff their names agree, and no member prints like an event |
| `Models.ParticipantIds` | models.py:31 | `event.participants` holds exactly the members with a participation row for the event |
| `Models.EventIdsOf` | models.py:18 | `member.events` holds exactly the events with a participation row for the member |
| `Models.ParticipationViewsAgree` | models.py:18-31 | `back_populates`: m is a participant of e iff e is among m's events |
| `Models.Join` | app.py:119-120 | after a guarded append the pair is a participant, no other row appears or vanishes, an existing pair leaves the rows as they were, and the composite key stays unique |
| `Models.JoinIdempotent` | app.py:119-124 | joining twice gives the same rows as joining once |
| `Models.JoinChangesOnlyItsPair` | app.py:119-120 | a join adds the member to its event's participants and changes no other event's participants or other member's events |
| `Models.UniqueRowOccursOnce` | models.py:5-7 | with the composite key, a stored (member, event) pair occurs in exactly one row |
| `Queries.FirstWhere` | app.py:49 | `.first()` is None iff no row matches; otherwise it is the earliest matching row |
| `Queries.AvailableMembers` | app.py:128 | the available members are exactly the stored members not participating in the event |
| `Queries.AvailableMembersInStoredOrder` | app.py:128 | the comprehension distributes over concatenation, so it keeps the stored order |
| `Queries.JoinRemovesFromAvailable` | app.py:119-128 | after a join the available list loses exactly the joining member |
| `Queries.InsertByDate` | app.py:38 | inserting into a most-recent-first list keeps it ordered and adds exactly that event |
| `Queries.SortByDateDesc` | app.py:95 | `order_by(Event.date.desc())` is ordered most recent first and is a permutation of the events |
| `Queries.RecentEvents` | app.py:38 | the home list has min(5, n) events, ordered most recent first, is a prefix of the full ordering, and holds only stored events |
| `Queries.RecentEventsAreLatest` | app.py:38 | no event left off the home list is more recent than one shown |
| `Store.ParseEventDate` | app.py:79-87 | the date parses iff one of the two formats parses; `%Y-%m-%dT%H:%M` takes priority and `%Y-%m-%d` is only the fallback |
| `Store.Club.Valid` | models.py:5-34 | the schema invariant: unique member ids and emails, unique event ids, one participation row per (member_id, event_id), participation and photo rows refer to stored members and events, and fresh keys for the next inserts; under it an email, or a member id, identifies at most one stored member |
| `Store.Club.constructor` | models.py:5-34 | an empty database satisfies every schema constraint |
| `Store.Club.AddMember` | app.py:45-66 | a duplicate email changes nothing; otherwise exactly one member is appended with the given name and email, and with the saved image only when an upload is present and passes `allowed_file`; other tables are unchanged and the schema invariant (unique email) is kept |
| `Store.Club.CreateEvent` | app.py:74-93 | when neither format parses nothing is stored; otherwise exactly one event is appended with the given title, description and parsed date; the other tables are unchanged |
| `Store.Club.EventDetailPost` | app.py:98-125 | an unknown event changes nothing; a photo part leaves participation untouched and stores a photo of this event iff its name passes `allowed_file`; otherwise an existing member is joined idempotently and nothing else changes |
| `Store.Club.Index` | app.py:36-40 | the home page shows the recent events and the member count |
| `Store.Club.ListMembers` | app.py:68-69 | the members page lists every stored member |
| `Store.Club.ListEvents` | app.py:95-96 | the events page lists every event, most recent first |
| `Store.Club.EventDetail` | app.py:100-130 | the event page finds the event iff it is stored and offers the available members |
| `Store.JoinTwice` | app.py:116-125 | posting the same join twice leaves exactly one participation row for the pair, and the second post reports it as already joined |

## Left out

- Routing, templates, `redirect`/`url_for`, the text of flash messages, `SECRET_KEY` and `app.run` are web plumbing. Flash messages are outcome tags.
- SQLAlchemy sessions, `commit`, `db.create_all` and a failed commit are not modelled. The database is the `Club` object, and each handler's changes take effect at once.
- File I/O is left out: `file.save`, `os.makedirs` and `os.path.exists`.
- Saved filenames are a parameter (`savedName`). They come from `secure_filename`, which is library code, and from a `datetime.now().timestamp()` prefix, which is a clock read.
- The clock defaults `join_date`, `created_at` and `joined_at` are left out.
- `datetime.strptime` is a parameter: a function from the text and one of the two formats to an optional date. The internals of the two formats are not modelled.
- `Store.ParseEventDate` treats any failure of either format as "does not parse". The source catches only `ValueError` for the first format. Given a string, `strptime` reports a bad date only by raising `ValueError`.
- The `albums` route computes a query it never uses and lists all events; it has no logic to model.
- The `String(n)` column length limits are enforced by the database engine, not by the code.
- `member_id` is an optional number: absent or empty is `None`. A non-numeric `member_id`, whose lookup depends on the database engine, is not modelled.
- Ties between equal event dates are ordered by the database engine. The model puts them in one fixed order, and its contracts state only the date order.
- `Upload.Lower`: it lower-cases only ASCII letters, not the full Unicode mapping of `str.lower()`. As argued above, this does not change the result of `allowed_file`.
