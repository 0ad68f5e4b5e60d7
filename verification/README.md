# Tracking pixel service: request handlers in Dafny

This project models the two request handlers of a small tracking-pixel web
service written in JavaScript (Node.js, restify, better-sqlite3, pngjs).

- `GET /image/:category.png` is the pixel route. It records one hit in the
  `hits` table and answers with a width x height PNG filled with one colour.
- `GET /admin/:command` is the admin route. It checks `key` against the
  configured password. It then runs either `stats`, a filtered, paginated
  listing of hits newest first, or `color`, which packs four channels into
  one unsigned 32-bit value.

The modules follow the handlers' structure:

- `Js`: the JavaScript number operations the handlers use, following ECMA-262.
  This covers `Math.max`/`Math.min` with NaN, ToUint32 (`>>> 0`), ToInt32
  (the operand conversion of `<<`, `>>`, OR and AND), and those four operators
  on 32-bit patterns. `Bits` holds the arithmetic
  of binary digits these rest on.
- `Params`: defaulting, `parseInt` and clamping of each query parameter. A
  present parameter is represented by what `parseInt` makes of it, an integer
  or NaN.
- `Color`: the RGBA codec. Unpacking uses the pixel route's `>>`/`&`
  extractions; packing uses the colour command's shift-and-OR expression. The two
  are proved inverse on bytes.
- `Raster`: the nested fill loop over the RGBA buffer, proved to paint every
  pixel.
- `Store`: the `hits` table as a sequence of rows under AUTOINCREMENT ids.
  It has the INSERT and the `WHERE ... ORDER BY id DESC LIMIT ? OFFSET ?`
  SELECT.
- `Filters`: the sixteen hand-written branches of the stats command, and a
  flag table they are proved to agree with.
- `Shaper`: the per-row view of the stats response.
- `Routes`: both handlers, their outcomes, and end-to-end lemmas.

### Behaviours worth knowing

- **ip-only filter.** When `ip_address` is given without `category`, the four
  branches still contain `category = ?`. They bind `filters["category"]`,
  which was never set. The model binds SQL NULL there. A comparison with NULL
  is never true, so these statements return no rows whatever the table holds
  (`Filters.IpWithoutCategorySelectsNothing`). The model follows the code
  here, not the evident intention of an ip-address filter.
- **No password.** The admin gate rejects every key, including a missing or
  empty one, when no password is configured (`Routes.Gate`). A configured
  empty password does admit the empty key.
- **NaN parameters.** A non-numeric `w`, `h`, `limit` or `page` is not
  defaulted: `parseInt` yields NaN and the clamps let it through. A NaN side
  reaches the INSERT, before any image is built; a NaN `limit` or `page`
  reaches LIMIT/OFFSET. Their handling of NaN is not modelled, so those
  requests end in the outcomes `PixelUnspecified` and `AdminUnspecified`.
- **Missing User-Agent.** Without a User-Agent header the INSERT binds no
  value for the NOT NULL column `user_agent` and throws, so no row is added
  and no image is sent (`PixelRejected`).
- **NaN channels and dates.** A NaN colour channel contributes zero bits. A
  NaN `before`/`after` fails `> 0` and applies no filter.
- **Rounding.** `Math.round(ms / 1000)` rounds halves up (`Routes.Seconds`).

## Model

| member | source | states |
|---|---|---|
| `Js.Max` | app/index.js:99-100 | `Math.max` is NaN iff an argument is NaN; otherwise it is the larger argument |
| `Js.Min` | app/index.js:99-100 | `Math.min` is NaN iff an argument is NaN; otherwise it is the smaller argument |
| `Js.ToUint32` | app/index.js:101 | `>>> 0` lands in [0, 2^32) and is congruent to its integer argument modulo 2^32; NaN becomes 0; values already in range are kept |
| `Js.ToInt32` | app/index.js:104 | the int32 reading lies in [-2^31, 2^31) and has the same 32-bit pattern as its argument |
| `Js.ShiftLeft` | app/index.js:337 | `x << k` is an int32; it equals x * 2^k when that product does not reach 2^31 |
| `Js.ShiftLeftPattern` | app/index.js:337 | the 32-bit pattern of `x << k` is that of x times 2^k, reduced modulo 2^32 |
| `Js.ShiftRight` | app/index.js:104-107 | `x >> k` is the int32 value of x divided by 2^k, rounded down |
| `Js.BitOrDigit` | app/index.js:337 | bit i of x OR y is set iff it is set in x or in y |
| `Js.BitAndDigit` | app/index.js:104-107 | bit i of `x & y` is set iff it is set in both |
| `Js.MaskLowByte` | app/index.js:104-107 | `x & 0xFF` is the 32-bit pattern of x modulo 256 |
| `Params.Clamp` | app/index.js:201-202 | the clamp is NaN exactly for a NaN parameter; otherwise it lies in [lo, hi] and is the nearest point to the default or the parsed value |
| `Params.Side` | app/index.js:99-100 | `w`/`h` default to 1 and clamp into [1, 512]; only a NaN parameter stays NaN |
| `Params.Limit` | app/index.js:201 | `limit` defaults to 50; a parsed integer goes to its nearest point of [1, 255]; NaN stays NaN |
| `Params.Page` | app/index.js:202 | `page` defaults to 1; a parsed integer goes to its nearest point of [1, 100000]; NaN stays NaN |
| `Params.DateBound` | app/index.js:203-204 | `before`/`after` default to 0 and negatives become 0 |
| `Params.DateBoundApplied` | app/index.js:214-216 | a date filter applies iff the parameter is present and parses to a positive integer |
| `Params.ChannelParam` | app/index.js:332-335 | a colour channel defaults to 0; a parsed integer goes to its nearest point of [0, 255]; NaN stays NaN |
| `Params.PackedColor` | app/index.js:101 | `c` is reduced modulo 2^32; absent or NaN gives 0; values in range are kept |
| `Strings.Slice` | app/index.js:75 | `slice(0, n)` is the prefix of length n, or the whole string when it is shorter |
| `Strings.Trim` | app/index.js:211 | `trim()` is the infix left after every leading and trailing space; it neither starts nor ends with a space |
| `Strings.TrimAllSpace` | app/index.js:211 | a string of spaces trims to the empty string |
| `Strings.TrimUntouched` | app/index.js:211 | a string with no space at either end is left unchanged by trim |
| `Color.Channel` | app/index.js:104-107 | `(color >> shift) & 0xFF` is the byte of the unsigned pattern starting at bit `shift` |
| `Color.Unpack` | app/index.js:103-108 | the four extracted channels weigh back to the packed colour |
| `Color.Bytes` | app/index.js:103-108 | every value below 2^32 is the weighted sum of its four bytes |
| `Color.Pack` | app/index.js:337-341 | the shifted channels OR-ed together and read unsigned are r * 2^24 + g * 2^16 + b * 2^8 + a |
| `Color.PackValue` | app/index.js:337 | the unsigned pattern of the OR expression is the weighted sum of the channel lanes |
| `Color.UnpackPack` | app/index.js:337-341 | unpacking a packed colour returns the same four channels |
| `Color.PackUnpack` | app/index.js:103-108 | packing the unpacked channels of any 32-bit colour returns that colour |
| `Color.WeighInjective` | app/index.js:337 | distinct channel quadruples pack to distinct values |
| `Color.PixelColor` | app/index.js:70-73 | the pixel colour is DEFAULT_COLOR for 0 and the unpacked channels otherwise, which is the unpacking of the colour in both cases |
| `Raster.Fill` | app/index.js:145-153 | after the two loops the buffer holds 4 * width * height bytes and every pixel holds the requested colour |
| `Raster.Offset` | app/index.js:147 | `(width * y + x) << 2` never wraps for in-range sides: it is 4 * (width * y + x) and addresses a whole pixel inside the buffer |
| `Raster.Paint` | app/index.js:148-151 | the four writes set exactly the pixel at `idx / 4` and leave every other pixel unchanged |
| `Raster.Cell` | app/index.js:147 | the cell index of (x, y) lies inside the raster and gives back x and y |
| `Store.NextId` | app/index.js:16 | the next AUTOINCREMENT id is positive and exceeds every id in a valid table |
| `Store.Insert` | app/index.js:111-121 | INSERT appends the hit under a fresh id, changes no existing row and keeps the table valid |
| `Store.Newest` | app/index.js:218 | `ORDER BY id DESC` lists exactly the matching rows, strictly descending in id for a valid table |
| `Store.Select` | app/index.js:218-219 | `LIMIT ? OFFSET ?` gives the window of the ordered rows that starts at the offset, up to `limit` rows |
| `Store.NewestIsTheOrderedSelection` | app/index.js:218 | any strictly descending list of exactly the matching rows is the ordered selection |
| `Store.DescendingUnique` | app/index.js:218 | two strictly descending lists with the same members are equal |
| `Store.NoConditionsAllRows` | app/index.js:296-297 | with no WHERE conjunct, the selection is the whole table, newest first |
| `Filters.Build` | app/index.js:206-301 | each filter is reported iff its parameter is truthy (or, for dates, positive), with category trimmed and cut to 32 and ip_address to 45 |
| `Filters.Dates` | app/index.js:214-233 | `before > 0` and `after > 0` each decide whether their filter is reported, with the bound's value |
| `Filters.BuildFollowsConjuncts` | app/index.js:210-301 | the sixteen nested branches build exactly the statement the table of presence flags prescribes |
| `Filters.DatesFollowConjuncts` | app/index.js:214-233 | the date levels append `date <= ?` and then `date >= ?` to the prefix, as applied |
| `Filters.ConjunctsAdmit` | app/index.js:218-297 | a row meets the tabled statement iff it matches every reported filter, and never when ip_address is reported without category |
| `Filters.WhereAdmits` | app/index.js:210-301 | a row meets the chosen statement iff it matches every reported filter, and never when ip_address is reported without category |
| `Filters.IpWithoutCategorySelectsNothing` | app/index.js:257-278 | with ip_address but no category, the page is empty for every table |
| `Filters.NoFilterSelectsAll` | app/index.js:279-298 | with no filter the statement has no WHERE clause and every row is a candidate, newest first |
| `Shaper.Shape` | app/index.js:304-321 | one view per row in the same order, fields copied, colour read as unsigned 32-bit |
| `Routes.Seconds` | app/index.js:76 | the recorded time is the nearest whole second, halves rounded up |
| `Routes.Metadata` | app/index.js:97 | `m` is present iff given; it is its own prefix of exactly min(length, 255) characters |
| `Routes.Pixel` | app/index.js:75-121 | not found iff the category is missing or empty; rejected iff, past that, the User-Agent is missing; unspecified iff, past those, a side is NaN; otherwise exactly one row is appended with the normalised fields |
| `Routes.ServePixel` | app/index.js:99-153 | the buffer of a recorded hit has width * height pixels, each the unpacked colour |
| `Routes.SidesBounded` | app/index.js:99-100 | clamped sides keep the pixel count below 2^29, so the offset shift never wraps |
| `Routes.Gate` | app/index.js:190-197 | the gate admits exactly the configured password and nothing when none is configured |
| `Routes.Admin` | app/index.js:189-352 | unauthorized iff the gate fails; otherwise the command picks stats, color or not found |
| `Routes.Skip` | app/index.js:219 | `(page - 1) * limit` rows are skipped: the page ends `page * limit` rows in |
| `Routes.StatsCommand` | app/index.js:200-329 | stats reports the built filters and at most `limit` results; unspecified iff limit or page is NaN |
| `Routes.Listing` | app/index.js:304-328 | `results_count` is the number of listed results, at most `limit` |
| `Routes.ListingPage` | app/index.js:218-326 | a page lists the matching rows newest first from offset `(page - 1) * limit`, as many as remain up to `limit`; result i is the full view of matching row `skip + i` |
| `Routes.ListingDescending` | app/index.js:218 | a page is strictly descending in id |
| `Routes.ColorCommand` | app/index.js:331-342 | the colour command returns the weighted sum of the clamped channels, below 2^32 |
| `Routes.ColorUnpacks` | app/index.js:337-341 | unpacking the command's value gives back the clamped channels |
| `Routes.PixelKeepsColor` | app/index.js:101 | a `c` already below 2^32 is served iff a User-Agent is sent, and then recorded and painted unchanged |
| `Routes.ColorPaints` | app/index.js:101-108 | the value of the colour command, passed as `c`, is served iff a User-Agent is sent, and then paints exactly the requested channels |
| `Routes.RedAdsRecorded` | app/index.js:75-121 | a red 10x5 pixel in "ads" on an empty table becomes row 1 with those fields, or is rejected without a User-Agent |
| `Routes.RedAdsIsRed` | app/index.js:103-108 | 0xFF0000FF unpacks to opaque red |
| `Routes.RedAdsListed` | app/index.js:200-328 | the stats command filtered on "ads" lists exactly the view of that row, with its size and colour |

## Left out

- Transport is not modelled: restify routing, `res.status`, the JSON and PNG
  bodies, `noCache` and `next()`. A response is an outcome datatype.
- The routes `/`, `/robots.txt` and `/favicon.ico` and the NotFound handler
  are not modelled.
- PNG encoding (`PNG.sync.write`) is not modelled. The model stops at the
  RGBA buffer the loop fills.
- The clock, the client address and the User-Agent header are parameters.
  `X-Forwarded-For` parsing behind a proxy is not modelled.
- Logging, database setup (the pragma, CREATE TABLE/INDEX) and the signal
  handlers are not modelled.
- The date string of a stats row is an uninterpreted parameter `formatDate`
  standing for the `toISOString` formatting.
- String-to-number parsing is not modelled. A `Param` holds the value
  `parseInt` produces.
- The model's numbers are exact integers. `parseInt` results beyond 2^53 lose
  precision in JavaScript and can even be Infinity; that is not modelled.
- `Params.DateBound`: the upper clamp to `Number.MAX_VALUE` is not modelled.
  It never changes an integer.
- A query parameter given more than once arrives as an array. The model takes
  every parameter to be a single string.
- Strings are sequences of Unicode scalar values, not UTF-16 code units. So
  `slice` and `length` count characters rather than code units.
- `Routes.Pixel`: a NaN `w` or `h` ends in `PixelUnspecified`. What
  better-sqlite3 and SQLite do with NaN in the NOT NULL columns `width` and
  `height` is not modelled.
- `Routes.StatsCommand`: a NaN `limit` or `page` ends in `AdminUnspecified`.
  What better-sqlite3 does with a NaN LIMIT/OFFSET is not modelled.
- Binding the unset `filters["category"]` is modelled as binding SQL NULL.
- Storage limits of the columns are not modelled: VARCHAR widths are not
  enforced by SQLite, and the model does not enforce them either.
