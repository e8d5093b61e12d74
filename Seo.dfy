/** The page-metadata and schema.org structured-data generators
    (src/lib/utils/seo.ts). The site origin, read there from the environment variable
    NEXT_PUBLIC_BASE_URL, is the parameter `origin`. */
module Seo {
  import opened Wrappers
  import opened ConfigTypes
  import opened JsStrings
  import Seqs

  // ================================================================ generateMetadata

  datatype OgImage = OgImage(url: string, width: int, height: int, alt: string)

  datatype OpenGraph = OpenGraph(
    title: string,
    description: string,
    url: string,
    siteName: string,
    images: seq<OgImage>,
    locale: string,
    kind: string)

  datatype TwitterCard = TwitterCard(card: string, title: string, description: string, images: seq<string>)

  datatype Alternates = Alternates(canonical: string)

  /** The `googleBot` block; `-1` means "no limit". */
  datatype GoogleBot = GoogleBot(
    index: bool,
    follow: bool,
    maxVideoPreview: int,
    maxImagePreview: string,
    maxSnippet: int)

  datatype Robots = Robots(index: bool, follow: bool, googleBot: GoogleBot)

  datatype Metadata = Metadata(
    title: string,
    description: string,
    keywords: string,
    openGraph: OpenGraph,
    twitter: TwitterCard,
    alternates: Alternates,
    robots: Robots)

  /** The site origin, or, when the environment gives none (or an empty one), a host
      made from the business name: lower-cased, each whitespace run replaced by a
      hyphen, under "https://" and ".fr". */
  function BaseUrl(origin: Option<string>, businessName: string): (r: string)
    ensures Truthy(origin) ==> r == origin.value
    ensures !Truthy(origin) ==> r == "https://" + HyphenateWhitespace(Lower(businessName)) + ".fr"
    ensures !Truthy(origin) ==>
      && |r| >= 11 && r[..8] == "https://" && r[|r| - 3..] == ".fr"
      && NoWhitespace(r[8..|r| - 3])
      && forall i :: 8 <= i < |r| - 3 ==> !IsUpper(r[i])
  {
    if Truthy(origin) then origin.value
    else
      HyphenateNoUpper(Lower(businessName));
      var host := HyphenateWhitespace(Lower(businessName));
      var r := "https://" + host + ".fr";
      assert r[8..|r| - 3] == host;
      r
  }

  /** `baseUrl + pagePath` when a (non-empty) page path is given, else `baseUrl`. */
  function CanonicalUrl(baseUrl: string, pagePath: Option<string>): (r: string)
    ensures |baseUrl| <= |r| && r[..|baseUrl|] == baseUrl
    ensures Truthy(pagePath) ==> r[|baseUrl|..] == pagePath.value
    ensures !Truthy(pagePath) ==> r == baseUrl
  {
    if Truthy(pagePath) then baseUrl + pagePath.value else baseUrl
  }

  const FixedRobots := Robots(true, true, GoogleBot(true, true, -1, "large", -1))

  function GenerateMetadata(seo: SeoConfig, business: BusinessInfo, origin: Option<string>, pagePath: Option<string>): (r: Metadata)
    ensures r.title == seo.title && r.description == seo.description
    ensures r.keywords == Join(seo.keywords, ", ")
    ensures r.alternates.canonical == CanonicalUrl(BaseUrl(origin, business.name), pagePath)
    ensures r.openGraph.url == r.alternates.canonical
    ensures r.openGraph.title == seo.title && r.openGraph.description == seo.description
    ensures r.openGraph.siteName == business.name
    ensures r.openGraph.locale == "fr_FR" && r.openGraph.kind == "website"
    ensures |r.openGraph.images| == (if Truthy(seo.ogImage) then 1 else 0)
    ensures Truthy(seo.ogImage) ==> r.openGraph.images[0] == OgImage(seo.ogImage.value, 1200, 630, business.name)
    ensures r.twitter.card == "summary_large_image"
    ensures r.twitter.title == seo.title && r.twitter.description == seo.description
    ensures |r.twitter.images| == |r.openGraph.images|
    ensures forall i :: 0 <= i < |r.twitter.images| ==> r.twitter.images[i] == r.openGraph.images[i].url
    ensures r.robots == FixedRobots
  {
    var baseUrl := BaseUrl(origin, business.name);
    var canonicalUrl := CanonicalUrl(baseUrl, pagePath);
    Metadata(
      seo.title,
      seo.description,
      Join(seo.keywords, ", "),
      OpenGraph(
        seo.title,
        seo.description,
        canonicalUrl,
        business.name,
        if Truthy(seo.ogImage) then [OgImage(seo.ogImage.value, 1200, 630, business.name)] else [],
        "fr_FR",
        "website"),
      TwitterCard(
        "summary_large_image",
        seo.title,
        seo.description,
        if Truthy(seo.ogImage) then [seo.ogImage.value] else []),
      Alternates(canonicalUrl),
      FixedRobots)
  }

  /** The keyword list can be read back from the joined string, as long as no keyword
      itself contains ", ". */
  lemma KeywordsRoundTrip(seo: SeoConfig, business: BusinessInfo, origin: Option<string>, pagePath: Option<string>)
    requires |seo.keywords| >= 1
    requires forall k :: 0 <= k < |seo.keywords| ==> !Contains(seo.keywords[k], ", ")
    ensures Split(GenerateMetadata(seo, business, origin, pagePath).keywords, ", ") == seo.keywords
  {
    var sep := ", ";
    forall k | 0 < k < |sep| ensures sep[k..] != sep[..|sep| - k] {
      assert sep[k..][0] == ' ' && sep[..|sep| - k][0] == ',';
    }
    SplitJoin(seo.keywords, sep);
  }

  /** The `canonicalUrl` override of the SEO configuration is never read. */
  lemma CanonicalOverrideIgnored(seo: SeoConfig, business: BusinessInfo, origin: Option<string>, pagePath: Option<string>, other: Option<string>)
    ensures GenerateMetadata(seo, business, origin, pagePath)
         == GenerateMetadata(seo.(canonicalUrl := other), business, origin, pagePath)
  {
  }

  lemma LowerNameExample(name: string)
    requires name == "Plomberie Dubois"
    ensures Lower(name) == "plomberie dubois"
  {
    var lowered := Lower(name);
    assert lowered[0] == 'p' && lowered[10] == 'd';
  }

  lemma DuboisWords(lowered: string, a: string, b: string)
    requires lowered == "plomberie dubois" && a == "plomberie" && b == "dubois"
    ensures lowered == a + " " + b
    ensures NoWhitespace(a) && NoWhitespace(b) && b != []
    ensures "https://" + (a + "-" + b) + ".fr" == "https://plomberie-dubois.fr"
  {
  }

  /** Without an origin, "Plomberie Dubois" is served from https://plomberie-dubois.fr. */
  lemma FallbackBaseUrlExample(name: string)
    requires name == "Plomberie Dubois"
    ensures BaseUrl(None, name) == "https://plomberie-dubois.fr"
  {
    LowerNameExample(name);
    var a, b := "plomberie", "dubois";
    DuboisWords(Lower(name), a, b);
    HyphenateTwoWords(a, b);
  }

  // ================================================================ generateOpeningHours

  datatype OpeningHoursSpecification = OpeningHoursSpecification(dayOfWeek: string, opens: string, closes: Option<string>)

  /** The `dayMap` of the generator: the English name schema.org uses for a weekday key. */
  function EnglishDay(key: string): (r: Option<string>)
    ensures r.Some? <==> IsWeekdayKey(key)
    ensures r.Some? ==> IsEnglishWeekday(r.value)
  {
    match key
    case "monday" => Some("Monday")
    case "tuesday" => Some("Tuesday")
    case "wednesday" => Some("Wednesday")
    case "thursday" => Some("Thursday")
    case "friday" => Some("Friday")
    case "saturday" => Some("Saturday")
    case "sunday" => Some("Sunday")
    case _ => None
  }

  predicate IsWeekdayKey(key: string) {
    key in {"monday", "tuesday", "wednesday", "thursday", "friday", "saturday", "sunday"}
  }

  predicate IsEnglishWeekday(day: string) {
    day in {"Monday", "Tuesday", "Wednesday", "Thursday", "Friday", "Saturday", "Sunday"}
  }

  /** A day value meaning "closed", compared after lower-casing. */
  predicate IsClosedMarker(hours: string) {
    Lower(hours) == "fermé" || Lower(hours) == "closed"
  }

  /** The time text of one side of the range, with its first "h" rewritten to ":". */
  function TimeOf(side: string): string {
    ReplaceFirst(side, 'h', ':')
  }

  /** What one loop iteration of `generateOpeningHours` pushes for one property, if anything. */
  function OpeningHoursEntry(field: Field): (r: Option<OpeningHoursSpecification>)
    ensures r.Some? <==> Truthy(field.value) && IsWeekdayKey(field.key) && !IsClosedMarker(field.value.value)
    ensures r.Some? ==> Some(r.value.dayOfWeek) == EnglishDay(field.key) && IsEnglishWeekday(r.value.dayOfWeek)
  {
    if Truthy(field.value) && field.key != "emergency" && EnglishDay(field.key).Some? then
      var hours := field.value.value;
      if IsClosedMarker(hours) then None
      else
        var parts := Split(hours, " - ");
        Some(OpeningHoursSpecification(
          EnglishDay(field.key).value,
          TimeOf(parts[0]),
          if |parts| > 1 then Some(TimeOf(parts[1])) else None))
    else None
  }

  /** The list `generateOpeningHours` returns. */
  function OpeningHoursOf(hoursData: JsRecord): seq<OpeningHoursSpecification> {
    Seqs.FilterMap(hoursData, OpeningHoursEntry)
  }

  /** `generateOpeningHours`: one pass over the entries, skipping with `continue`. */
  method GenerateOpeningHours(hoursData: JsRecord) returns (openingHours: seq<OpeningHoursSpecification>)
    ensures openingHours == OpeningHoursOf(hoursData)
  {
    openingHours := [];
    for i := 0 to |hoursData|
      invariant openingHours == OpeningHoursOf(hoursData[..i])
    {
      assert hoursData[..i + 1] == hoursData[..i] + [hoursData[i]];
      Seqs.FilterMapSnoc(hoursData[..i], hoursData[i], OpeningHoursEntry);
      var day, hours := hoursData[i].key, hoursData[i].value;
      if Truthy(hours) && day != "emergency" && EnglishDay(day).Some? {
        if Lower(hours.value) == "fermé" || Lower(hours.value) == "closed" {
          continue;
        }
        var parts := Split(hours.value, " - ");
        var opens := ReplaceFirst(parts[0], 'h', ':');
        var closes := if |parts| > 1 then Some(ReplaceFirst(parts[1], 'h', ':')) else None;
        openingHours := openingHours + [OpeningHoursSpecification(EnglishDay(day).value, opens, closes)];
      }
    }
    assert hoursData[..|hoursData|] == hoursData;
  }

  /** Exactly the open weekdays appear: `x` is emitted iff some property yields it. */
  lemma OpeningHoursMember(hoursData: JsRecord, x: OpeningHoursSpecification)
    ensures x in OpeningHoursOf(hoursData) <==>
      exists i :: 0 <= i < |hoursData| && OpeningHoursEntry(hoursData[i]) == Some(x)
  {
    Seqs.FilterMapMember(hoursData, OpeningHoursEntry, x);
  }

  /** Every emitted day is an English weekday name: "emergency" and unknown keys never appear. */
  lemma OpeningHoursDays(hoursData: JsRecord)
    ensures forall k :: 0 <= k < |OpeningHoursOf(hoursData)| ==> IsEnglishWeekday(OpeningHoursOf(hoursData)[k].dayOfWeek)
  {
    forall k | 0 <= k < |OpeningHoursOf(hoursData)| ensures IsEnglishWeekday(OpeningHoursOf(hoursData)[k].dayOfWeek) {
      OpeningHoursMember(hoursData, OpeningHoursOf(hoursData)[k]);
    }
  }

  /** The output keeps the input's key order. */
  lemma OpeningHoursOrder(a: JsRecord, b: JsRecord)
    ensures OpeningHoursOf(a + b) == OpeningHoursOf(a) + OpeningHoursOf(b)
  {
    Seqs.FilterMapAppend(a, b, OpeningHoursEntry);
  }

  lemma NoSpaceNoSeparator(s: string)
    requires ' ' !in s
    ensures !Contains(s, " - ")
  {
    forall i | 0 <= i <= |s| ensures !OccursAt(s, " - ", i) {
      if i + 3 <= |s| {
        assert s[i..i + 3][0] == s[i];
      }
    }
  }

  /** A text with a hyphen in it is never a closed marker: neither "fermé" nor "closed"
      has one, and lower-casing keeps it. */
  lemma DashNotClosed(s: string, k: nat)
    requires k < |s| && s[k] == '-'
    ensures !IsClosedMarker(s)
  {
    var l := Lower(s);
    assert l[k] == LowerChar(s[k]) == '-';
    var f, c := "fermé", "closed";
    assert forall j :: 0 <= j < |f| ==> f[j] != '-';
    assert forall j :: 0 <= j < |c| ==> c[j] != '-';
  }

  /** A value "<open> - <close>" whose two sides have no space yields those two sides,
      each with its first "h" rewritten. */
  lemma OpeningHoursSides(day: string, open: string, close: string)
    requires IsWeekdayKey(day) && ' ' !in open && ' ' !in close
    ensures OpeningHoursEntry(Field(day, Some(open + " - " + close)))
         == Some(OpeningHoursSpecification(EnglishDay(day).value, TimeOf(open), Some(TimeOf(close))))
  {
    var s := open + " - " + close;
    assert s[|open| + 1] == '-';
    DashNotClosed(s, |open| + 1);
    NoSpaceNoSeparator(open);
    NoSpaceNoSeparator(close);
    var parts := [open, close];
    assert Join(parts, " - ") == open + " - " + close;
    SplitJoin(parts, " - ");
  }

  /** "<H>h<MM>" becomes "<H>:<MM>" when the hour part has no "h". */
  lemma TimeRewrite(hour: string, minutes: string)
    requires 'h' !in hour
    ensures TimeOf(hour + "h" + minutes) == hour + ":" + minutes
  {
    ReplaceFirstAfter(hour, ['h'] + minutes, 'h', ':');
    ReplaceFirstHead(minutes, 'h', ':');
    assert hour + "h" + minutes == hour + (['h'] + minutes);
    assert hour + ":" + minutes == hour + ([':'] + minutes);
  }

  lemma TimeExample(hour: string, time: string, rewritten: string)
    requires 'h' !in hour
    requires time == hour + "h00" && rewritten == hour + ":00"
    ensures TimeOf(time) == rewritten
  {
    TimeRewrite(hour, "00");
    assert hour + "h" + "00" == time;
    assert hour + ":" + "00" == rewritten;
  }

  lemma MondayText(open: string, close: string)
    requires open == "8h00" && close == "19h00"
    ensures open + " - " + close == "8h00 - 19h00"
    ensures ' ' !in open && ' ' !in close
  {
  }

  lemma NotClosedExample(hours: string)
    requires hours == "8h00 - 19h00"
    ensures !IsClosedMarker(hours)
  {
    assert |Lower(hours)| == 12;
  }

  lemma MondayEntry(open: string, close: string)
    requires open == "8h00" && close == "19h00"
    ensures OpeningHoursEntry(Field("monday", Some(open + " - " + close)))
         == Some(OpeningHoursSpecification("Monday", TimeOf(open), Some(TimeOf(close))))
  {
    assert IsWeekdayKey("monday");
    assert EnglishDay("monday") == Some("Monday");
    MondayText(open, close);
    NotClosedExample(open + " - " + close);
    OpeningHoursSides("monday", open, close);
  }

  /** "8h00 - 19h00" opens at "8:00" and closes at "19:00". */
  lemma OpeningHoursExample(open: string, close: string)
    requires open == "8h00" && close == "19h00"
    ensures OpeningHoursEntry(Field("monday", Some(open + " - " + close)))
         == Some(OpeningHoursSpecification("Monday", "8:00", Some("19:00")))
  {
    assert TimeOf(open) == "8:00" by { TimeExample("8", open, "8:00"); }
    assert TimeOf(close) == "19:00" by { TimeExample("19", close, "19:00"); }
    MondayEntry(open, close);
  }

  /** "Fermé" and "FERMÉ" both mark a closed day, which yields no entry. */
  lemma ClosedDayExample(day: string, hours: string)
    requires IsWeekdayKey(day)
    requires hours == "Fermé" || hours == "FERMÉ"
    ensures OpeningHoursEntry(Field(day, Some(hours))).None?
  {
    assert |Lower(hours)| == 5 && Lower(hours)[0] == 'f' && Lower(hours)[1] == 'e' && Lower(hours)[2] == 'r' && Lower(hours)[3] == 'm' && Lower(hours)[4] == 'é';
    assert Lower(hours) == "fermé";
  }

  // ================================================================ generateStructuredData

  datatype PostalAddress = PostalAddress(
    streetAddress: string,
    addressLocality: string,
    postalCode: string,
    addressCountry: string)

  datatype GeoCoordinates = GeoCoordinates(latitude: real, longitude: real)

  datatype ServiceItem = ServiceItem(name: string, description: string)

  datatype Offer = Offer(itemOffered: ServiceItem, price: Option<string>, position: int)

  datatype OfferCatalog = OfferCatalog(name: string, itemListElement: seq<Offer>)

  /** The `LocalBusiness` object; a `None` field is one the JSON output omits. The
      `@type` of each nested object is the name of its datatype. */
  datatype LocalBusiness = LocalBusiness(
    context: string,
    kind: string,
    name: string,
    image: Option<string>,
    id: string,
    url: Option<string>,
    telephone: string,
    email: string,
    address: PostalAddress,
    geo: Option<GeoCoordinates>,
    openingHoursSpecification: Option<seq<OpeningHoursSpecification>>,
    sameAs: Option<seq<string>>,
    hasOfferCatalog: Option<OfferCatalog>)

  /** A social link survives `filter(Boolean)` when it is a non-empty string. */
  function SocialUrl(field: Field): Option<string> {
    if Truthy(field.value) then Some(field.value.value) else None
  }

  /** `Object.values(socialMedia).filter(Boolean)`. */
  function SameAsOf(socialMedia: JsRecord): seq<string> {
    Seqs.FilterMap(socialMedia, SocialUrl)
  }

  /** One offer per service, numbered from 1 in input order. */
  function OffersOf(services: seq<Service>): (r: seq<Offer>)
    ensures |r| == |services|
  {
    seq(|services|, i requires 0 <= i < |services| =>
      Offer(ServiceItem(services[i].title, services[i].description), services[i].price, i + 1))
  }

  /** What a template literal makes of the origin: an absent one prints as "undefined". */
  function Interpolate(v: Option<string>): string {
    match v
    case Some(s) => s
    case None => "undefined"
  }

  function GenerateStructuredData(business: BusinessInfo, services: Option<seq<Service>>, origin: Option<string>): (r: LocalBusiness)
    ensures r.context == "https://schema.org" && r.kind == "LocalBusiness"
    ensures r.name == business.name && r.image == business.logo
    ensures r.id == Interpolate(origin) + "/#business" && r.url == origin
    ensures r.telephone == business.phone && r.email == business.email
    ensures r.address == PostalAddress(business.address.street, business.address.city,
                                       business.address.postalCode, business.address.country)
    ensures r.geo.Some? <==> business.address.coordinates.Some?
    ensures r.geo.Some? ==>
      r.geo.value == GeoCoordinates(business.address.coordinates.value.lat, business.address.coordinates.value.lng)
    ensures r.openingHoursSpecification.Some? <==> business.openingHours.Some?
    ensures r.openingHoursSpecification.Some? ==>
      r.openingHoursSpecification.value == OpeningHoursOf(business.openingHours.value)
    ensures r.sameAs.Some? <==> business.socialMedia.Some?
    ensures r.sameAs.Some? ==> r.sameAs.value == SameAsOf(business.socialMedia.value)
    ensures r.hasOfferCatalog.Some? <==> services.Some? && |services.value| > 0
    ensures r.hasOfferCatalog.Some? ==>
      && r.hasOfferCatalog.value.name == "Services"
      && var items := r.hasOfferCatalog.value.itemListElement;
      && |items| == |services.value|
      && forall i :: 0 <= i < |items| ==>
           && items[i].position == i + 1
           && items[i].itemOffered.name == services.value[i].title
           && items[i].itemOffered.description == services.value[i].description
           && items[i].price == services.value[i].price
  {
    var geo := match business.address.coordinates
      case Some(c) => Some(GeoCoordinates(c.lat, c.lng))
      case None => None;
    var hours := match business.openingHours
      case Some(h) => Some(OpeningHoursOf(h))
      case None => None;
    var sameAs := match business.socialMedia
      case Some(sm) => Some(SameAsOf(sm))
      case None => None;
    var catalog := if services.Some? && |services.value| > 0
      then Some(OfferCatalog("Services", OffersOf(services.value)))
      else None;
    LocalBusiness(
      "https://schema.org",
      "LocalBusiness",
      business.name,
      business.logo,
      Interpolate(origin) + "/#business",
      origin,
      business.phone,
      business.email,
      PostalAddress(business.address.street, business.address.city,
                    business.address.postalCode, business.address.country),
      geo,
      hours,
      sameAs,
      catalog)
  }

  /** `sameAs` lists exactly the non-empty social links. */
  lemma SameAsMember(socialMedia: JsRecord, url: string)
    ensures url in SameAsOf(socialMedia) <==>
      exists i :: 0 <= i < |socialMedia| && socialMedia[i].value == Some(url) && url != ""
  {
    Seqs.FilterMapMember(socialMedia, SocialUrl, url);
  }

  /** ... in the order of the input object's keys. */
  lemma SameAsOrder(a: JsRecord, b: JsRecord)
    ensures SameAsOf(a + b) == SameAsOf(a) + SameAsOf(b)
  {
    Seqs.FilterMapAppend(a, b, SocialUrl);
  }

  /** A social-media object with no usable link gives an empty `sameAs`, not an absent one. */
  lemma SameAsEmptyNotAbsent(business: BusinessInfo, services: Option<seq<Service>>, origin: Option<string>)
    requires business.socialMedia.Some?
    requires forall i :: 0 <= i < |business.socialMedia.value| ==> !Truthy(business.socialMedia.value[i].value)
    ensures GenerateStructuredData(business, services, origin).sameAs == Some([])
  {
    Seqs.FilterMapNoneKept(business.socialMedia.value, SocialUrl);
  }

  /** Without an origin the `@id` is the text "undefined/#business" and `url` is omitted. */
  lemma IdWithoutOrigin(business: BusinessInfo, services: Option<seq<Service>>)
    ensures GenerateStructuredData(business, services, None).id == "undefined/#business"
    ensures GenerateStructuredData(business, services, None).url == None
  {
  }

  // ================================================================ generateBreadcrumbStructuredData

  datatype Crumb = Crumb(name: string, url: string)

  datatype ListItem = ListItem(position: int, name: string, item: string)

  datatype BreadcrumbList = BreadcrumbList(context: string, kind: string, itemListElement: seq<ListItem>)

  function GenerateBreadcrumbStructuredData(items: seq<Crumb>): (r: BreadcrumbList)
    ensures r.context == "https://schema.org" && r.kind == "BreadcrumbList"
    ensures |r.itemListElement| == |items|
    ensures forall i :: 0 <= i < |items| ==> r.itemListElement[i].position == i + 1
  {
    BreadcrumbList(
      "https://schema.org",
      "BreadcrumbList",
      seq(|items|, i requires 0 <= i < |items| => ListItem(i + 1, items[i].name, items[i].url)))
  }

  /** The crumbs a breadcrumb list describes, in list order. */
  function CrumbsOf(list: BreadcrumbList): seq<Crumb> {
    seq(|list.itemListElement|, i requires 0 <= i < |list.itemListElement| =>
      Crumb(list.itemListElement[i].name, list.itemListElement[i].item))
  }

  /** Reading the crumbs back from the generated list gives the input, in order. */
  lemma BreadcrumbRoundTrip(items: seq<Crumb>)
    ensures CrumbsOf(GenerateBreadcrumbStructuredData(items)) == items
  {
  }
}
