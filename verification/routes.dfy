/**
  The decisions of the two request handlers: the pixel route
  `/image/:category.png`, which records a hit and answers with a one-colour
  raster, and the admin route `/admin/:command`, which checks the key and
  runs the stats or the colour command. Transport, logging and the image
  encoder are not part of the model; the clock and the client's address and
  user agent arrive as parameters.
 */
module Routes {
  import opened Wrappers
  import opened Js
  import opened Strings
  import opened Params
  import opened Color
  import opened Store
  import opened Filters
  import opened Shaper
  import opened Raster

  const CategoryLength := 32
  const MetadataLength := 255

  /** `Math.round(ms / 1000)`: the nearest whole second, halves rounded up. */
  function Seconds(ms: int): (s: int)
    ensures 1000 * s - 500 <= ms < 1000 * s + 500
  {
    (ms + 500) / 1000
  }

  /** What the pixel route reads from the request: the path segment and the query parameters `w`, `h`, `c`, `m`. */
  datatype PixelRequest = PixelRequest(category: Option<string>, w: Param, h: Param, c: Param, m: Option<string>)

  /**
    What the pixel route takes from the connection: the request time in
    milliseconds, the address, and the User-Agent header, which a request
    may lack.
   */
  datatype Client = Client(timeMs: int, ipAddress: string, userAgent: Option<string>)

  /**
    The pixel route's outcome. `PixelRejected` is a request without a
    User-Agent header: the INSERT binds no value for the NOT NULL column
    `user_agent` and throws, so no row is added and no image is sent.
    `PixelUnspecified` stands for a request whose `w` or `h` parses to NaN:
    NaN passes the clamp and reaches the INSERT, whose handling of it is not
    part of the model.
   */
  datatype PixelResponse =
    | PixelNotFound
    | PixelRejected
    | PixelUnspecified
    | Image(table: Table, width: nat, height: nat, color: nat)

  /** `params.m == undefined ? null : params.m.slice(0, 255)` */
  function Metadata(m: Option<string>): (r: Option<string>)
    ensures r.Some? <==> m.Some?
    ensures r.Some? ==> |r.value| <= MetadataLength && r.value <= m.value
    ensures r.Some? ==> |r.value| == if |m.value| < MetadataLength then |m.value| else MetadataLength
    ensures m.Some? && |m.value| <= MetadataLength ==> r == m
  {
    if m.None? then None else Some(Slice(m.value, MetadataLength))
  }

  /**
    The pixel route: not found for a missing or empty category; otherwise
    one INSERT with the normalised parameters, and a width x height raster
    in the unpacked colour.
   */
  function Pixel(t: Table, req: PixelRequest, client: Client): (resp: PixelResponse)
    ensures resp.PixelNotFound? <==> !Truthy(req.category)
    ensures resp.PixelRejected? <==> Truthy(req.category) && client.userAgent.None?
    ensures resp.PixelUnspecified? <==>
      Truthy(req.category) && client.userAgent.Some? && (req.w == Given(NaN) || req.h == Given(NaN))
    ensures resp.Image? ==>
      && |resp.table| == |t| + 1 && resp.table == Insert(t, resp.table[|t|].hit)
      && resp.table[|t|].hit == Hit(Seconds(client.timeMs), Some(Slice(req.category.value, CategoryLength)),
                                    client.ipAddress, Side(req.w).v, Side(req.h).v, PackedColor(req.c),
                                    Metadata(req.m), client.userAgent.value)
      && resp.width == Side(req.w).v && resp.height == Side(req.h).v
      && resp.color == PackedColor(req.c)
  {
    if req.category.None? then PixelNotFound
    else
      var category := Slice(req.category.value, CategoryLength);
      if |category| == 0 then PixelNotFound
      else if client.userAgent.None? then PixelRejected
      else
        var width, height := Side(req.w), Side(req.h);
        if width.NaN? || height.NaN? then PixelUnspecified
        else
          var color := PackedColor(req.c);
          var hit := Hit(Seconds(client.timeMs), Some(category), client.ipAddress,
                         width.v, height.v, color, Metadata(req.m), client.userAgent.value);
          Image(Insert(t, hit), width.v, height.v, color)
  }

  /**
    The pixel route with its image: the response and the RGBA buffer it
    encodes, every pixel of which holds the unpacked colour (DEFAULT_COLOR
    for colour 0, which unpacks to the same four zeros).
   */
  method ServePixel(t: Table, req: PixelRequest, client: Client) returns (resp: PixelResponse, data: seq<Byte>)
    ensures resp == Pixel(t, req, client)
    ensures resp.Image? ==> |data| == 4 * (resp.width * resp.height)
    ensures resp.Image? ==> forall p :: 0 <= p < resp.width * resp.height ==> PixelAt(data, p) == Unpack(resp.color)
    ensures !resp.Image? ==> data == []
  {
    resp := Pixel(t, req, client);
    data := [];
    if resp.Image? {
      SidesBounded(resp.width, resp.height);
      data := Fill(resp.width, resp.height, PixelColor(resp.color));
    }
  }

  lemma SidesBounded(width: nat, height: nat)
    requires MinSide <= width <= MaxSide && MinSide <= height <= MaxSide
    ensures width * height < 0x2000_0000
  {
    assert width * height <= MaxSide * height;
    assert MaxSide * height <= MaxSide * MaxSide;
  }

  /** The `key` test: the command proceeds only when a password is configured and the key equals it. */
  predicate Authorized(password: Option<string>, key: Option<string>)
  {
    !(password.None? || key != password)
  }

  /** The gate admits exactly the configured password; without one it admits nothing, not even an empty or missing key. */
  lemma Gate(password: Option<string>, key: Option<string>)
    ensures Authorized(password, key) <==> password.Some? && key.Some? && key.value == password.value
    ensures password.None? ==> !Authorized(password, key)
  {
  }

  /** The query parameters of the admin route. */
  datatype AdminQuery = AdminQuery(
    key: Option<string>,
    category: Option<string>,
    ipAddress: Option<string>,
    before: Param,
    after: Param,
    limit: Param,
    page: Param,
    red: Param,
    green: Param,
    blue: Param,
    alpha: Param)

  /**
    The admin route's outcome. `AdminUnspecified` stands for a stats request
    whose `limit` or `page` parses to NaN, which then reaches LIMIT/OFFSET.
   */
  datatype AdminResponse =
    | Unauthorized
    | AdminNotFound
    | AdminUnspecified
    | Stats(filters: Applied, count: nat, results: seq<View>)
    | ColorValue(color: nat)

  /** The admin route: the key gate, then the command. */
  function Admin(password: Option<string>, command: string, q: AdminQuery, t: Table, formatDate: int -> string): (resp: AdminResponse)
    ensures resp.Unauthorized? <==> !Authorized(password, q.key)
    ensures resp.AdminNotFound? <==> Authorized(password, q.key) && command != "stats" && command != "color"
    ensures resp.ColorValue? <==> Authorized(password, q.key) && command == "color"
    ensures resp.Stats? || resp.AdminUnspecified? <==> Authorized(password, q.key) && command == "stats"
  {
    if !Authorized(password, q.key) then Unauthorized
    else if command == "stats" then StatsCommand(q, t, formatDate)
    else if command == "color" then ColorCommand(q)
    else AdminNotFound
  }

  /** `(page - 1) * limit`: the number of matching rows a page skips. */
  function Skip(limit: nat, page: nat): (offset: nat)
    requires 1 <= page
    ensures offset + limit == page * limit
  {
    (page - 1) * limit
  }

  /**
    The stats command: `limit` and `page` normalised, the filter builder
    chooses the statement from `category`, `ip_address`, `before` and
    `after`, and the page of its answer is listed.
   */
  function StatsCommand(q: AdminQuery, t: Table, formatDate: int -> string): (resp: AdminResponse)
    ensures resp.Stats? || resp.AdminUnspecified?
    ensures resp.AdminUnspecified? <==> q.limit == Given(NaN) || q.page == Given(NaN)
    ensures resp.Stats? ==>
      && resp.filters == Build(q.category, q.ipAddress, DateBound(q.before), DateBound(q.after)).filters
      && resp.count == |resp.results| <= Limit(q.limit).v <= MaxLimit
      && resp == Listing(t, Build(q.category, q.ipAddress, DateBound(q.before), DateBound(q.after)),
                         Limit(q.limit).v, Page(q.page).v, formatDate)
  {
    var limit, page := Limit(q.limit), Page(q.page);
    if limit.NaN? || page.NaN? then AdminUnspecified
    else Listing(t, Build(q.category, q.ipAddress, DateBound(q.before), DateBound(q.after)), limit.v, page.v, formatDate)
  }

  /**
    One page of the answer to a built statement: the rows the store returns
    for `LIMIT limit OFFSET (page - 1) * limit`, their number, and their views.
   */
  function Listing(t: Table, plan: Plan, limit: nat, page: nat, formatDate: int -> string): (resp: AdminResponse)
    requires 1 <= page
    ensures resp.Stats? && resp.filters == plan.filters
    ensures resp.count == |resp.results| <= limit
  {
    var rows := Select(t, plan.where, limit, Skip(limit, page));
    Stats(plan.filters, |rows|, Shape(rows, formatDate))
  }

  /**
    Which rows a page lists: the rows the statement admits, newest first,
    after skipping the first `(page - 1) * limit` of them; as many as
    remain, up to `limit`.
   */
  lemma ListingPage(t: Table, plan: Plan, limit: nat, page: nat, formatDate: int -> string)
    requires 1 <= page
    ensures var resp := Listing(t, plan, limit, page, formatDate);
      var all := Newest(t, plan.where);
      var skip := (page - 1) * limit;
      && resp.count == (if skip >= |all| then 0 else if |all| - skip < limit then |all| - skip else limit)
      && forall i :: 0 <= i < resp.count ==>
           && skip + i < |all|
           && resp.results[i].id == all[skip + i].id
           && resp.results[i].unixTime == all[skip + i].hit.date
           && resp.results[i] == View1(all[skip + i], formatDate)
  {
    var skip := Skip(limit, page);
    var rows := Select(t, plan.where, limit, skip);
    var all := Newest(t, plan.where);
    forall i | 0 <= i < |rows|
      ensures skip + i < |all| && rows[i] == all[skip + i]
    {
      assert rows == all[skip..skip + |rows|];
    }
  }

  /** With valid ids, a page is strictly descending in id. */
  lemma ListingDescending(t: Table, plan: Plan, limit: nat, page: nat, formatDate: int -> string)
    requires 1 <= page && Valid(t)
    ensures var resp := Listing(t, plan, limit, page, formatDate);
      forall i, j :: 0 <= i < j < |resp.results| ==> resp.results[i].id > resp.results[j].id
  {
    var rows := Select(t, plan.where, limit, Skip(limit, page));
    assert Descending(rows);
  }

  /** The colour command: the four clamped channels packed as `(r << 24) | (g << 16) | (b << 8) | a`, read unsigned. */
  function ColorCommand(q: AdminQuery): (resp: AdminResponse)
    ensures resp.ColorValue? && resp.color < TwoTo32
    ensures resp.color == Weigh(Lane(ChannelParam(q.red)), Lane(ChannelParam(q.green)),
                                Lane(ChannelParam(q.blue)), Lane(ChannelParam(q.alpha)))
  {
    ColorValue(Pack(ChannelParam(q.red), ChannelParam(q.green), ChannelParam(q.blue), ChannelParam(q.alpha)))
  }

  /** Unpacking the colour command's value gives back the four clamped channels. */
  lemma ColorUnpacks(q: AdminQuery)
    ensures Unpack(ColorCommand(q).color)
      == Rgba(Lane(ChannelParam(q.red)), Lane(ChannelParam(q.green)), Lane(ChannelParam(q.blue)), Lane(ChannelParam(q.alpha)))
  {
    var c := Unpack(ColorCommand(q).color);
    WeighInjective(c.red, c.green, c.blue, c.alpha,
                   Lane(ChannelParam(q.red)), Lane(ChannelParam(q.green)),
                   Lane(ChannelParam(q.blue)), Lane(ChannelParam(q.alpha)));
  }

  /**
    A pixel request with a category, default sides and a `c` already below
    2^32 is served iff the client sends a User-Agent, and then records and
    paints exactly that colour.
   */
  lemma PixelKeepsColor(t: Table, category: string, color: nat, client: Client)
    requires |category| > 0 && color < TwoTo32
    ensures var resp := Pixel(t, PixelRequest(Some(category), Undefined, Undefined, Given(Int(color)), None), client);
      && (resp.Image? <==> client.userAgent.Some?)
      && (resp.Image? ==> resp.color == color && resp.table[|t|].hit.color == color)
  {
    var req := PixelRequest(Some(category), Undefined, Undefined, Given(Int(color)), None);
    assert Truthy(req.category);
  }

  /**
    The colour command and the pixel route agree: the value the command
    returns, passed as `c`, paints pixels of exactly the requested channels
    (each defaulted to 0 and clamped to [0,255]).
   */
  lemma ColorPaints(q: AdminQuery, t: Table, category: string, client: Client)
    requires |category| > 0
    ensures var color := ColorCommand(q).color;
      var resp := Pixel(t, PixelRequest(Some(category), Undefined, Undefined, Given(Int(color)), None), client);
      && (resp.Image? <==> client.userAgent.Some?)
      && (resp.Image? ==> Unpack(resp.color) == Rgba(Lane(ChannelParam(q.red)), Lane(ChannelParam(q.green)),
                                    Lane(ChannelParam(q.blue)), Lane(ChannelParam(q.alpha))))
  {
    PixelKeepsColor(t, category, ColorCommand(q).color, client);
    ColorUnpacks(q);
  }

  /** An opaque red 10x5 pixel in category "ads". */
  const RedAds := PixelRequest(Some("ads"), Given(Int(10)), Given(Int(5)), Given(Int(0xFF00_00FF)), None)

  /** On an empty table, the pixel route records the red pixel as row 1, unless the User-Agent is missing. */
  lemma RedAdsRecorded(client: Client)
    ensures client.userAgent.None? ==> Pixel([], RedAds, client) == PixelRejected
    ensures client.userAgent.Some? ==>
      Pixel([], RedAds, client)
        == Image([Row(1, Hit(Seconds(client.timeMs), Some("ads"), client.ipAddress, 10, 5, 0xFF00_00FF, None, client.userAgent.value))],
                 10, 5, 0xFF00_00FF)
  {
    assert Slice("ads", CategoryLength) == "ads";
    assert Side(Given(Int(10))) == Int(10);
    assert Side(Given(Int(5))) == Int(5);
    assert PackedColor(Given(Int(0xFF00_00FF))) == 0xFF00_00FF;
  }

  /** ... and paints it opaque red. */
  lemma RedAdsIsRed()
    ensures Unpack(0xFF00_00FF) == Rgba(255, 0, 0, 255)
  {
    var c := Unpack(0xFF00_00FF);
    WeighInjective(c.red, c.green, c.blue, c.alpha, 255, 0, 0, 255);
  }

  /** The stats command filtered on category "ads" then lists that row, colour read back unsigned. */
  lemma RedAdsListed(password: string, client: Client, userAgent: string, formatDate: int -> string)
    ensures var t := [Row(1, Hit(Seconds(client.timeMs), Some("ads"), client.ipAddress, 10, 5, 0xFF00_00FF, None, userAgent))];
      var q := AdminQuery(Some(password), Some("ads"), None, Undefined, Undefined, Undefined, Undefined,
                          Undefined, Undefined, Undefined, Undefined);
      var resp := Admin(Some(password), "stats", q, t, formatDate);
      && resp.Stats? && resp.count == 1
      && resp.filters == Applied(Some("ads"), None, None, None)
      && resp.results[0].category == Some("ads")
      && resp.results[0].image == ImageView(10, 5, 0xFF00_00FF)
      && resp.results == [View1(t[0], formatDate)]
  {
    var t := [Row(1, Hit(Seconds(client.timeMs), Some("ads"), client.ipAddress, 10, 5, 0xFF00_00FF, None, userAgent))];
    var q := AdminQuery(Some(password), Some("ads"), None, Undefined, Undefined, Undefined, Undefined,
                        Undefined, Undefined, Undefined, Undefined);
    assert Trim("ads") == "ads" by {
      TrimUntouched("ads");
    }
    assert Slice("ads", CategoryWidth) == "ads";
    var plan := Build(q.category, q.ipAddress, DateBound(q.before), DateBound(q.after));
    assert plan.where == [CategoryIs(Some("ads"))];
    assert Satisfies(t[0], plan.where);
    var all := Newest(t, plan.where);
    assert t[0] in all;
    assert |all| == 1;
    var rows := Select(t, plan.where, 50, 0);
    assert rows == [t[0]];
  }
}
