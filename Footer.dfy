/** The site footer (src/components/shared/Footer.tsx): the opening-hours table, the
    certification badges, the telephone link and the social-media block. */
module Footer {
  import opened Wrappers
  import opened ConfigTypes
  import opened JsStrings
  import Seqs
  import Seo

  datatype Variant = Plumber | Restaurant | Medical | Legal

  /** The fallback badge icon, a trophy. */
  const Trophy := "\U{1F3C6}"

  /** The three badge icons of each variant (those written with a variation selector
      keep it, as in the source). */
  function CertificationIcons(variant: Variant): (r: seq<string>)
    ensures |r| == 3
    ensures forall i :: 0 <= i < 3 ==> r[i] != ""
  {
    match variant
    case Plumber => ["\U{1F527}", "\U{1F6E1}\U{FE0F}", "\U{2B50}"]
    case Restaurant => ["\U{1F37D}\U{FE0F}", "\U{1F3C6}", "\U{2B50}"]
    case Medical => ["\U{1F3E5}", "\U{1FA7A}", "\U{2B50}"]
    case Legal => ["\U{2696}\U{FE0F}", "\U{1F4DC}", "\U{1F3DB}\U{FE0F}"]
  }

  /** `certificationIcons[index] || '🏆'`: a missing (or empty) entry falls back to the trophy. */
  function CertificationIcon(variant: Variant, index: nat): (r: string)
    ensures index < 3 ==> r == CertificationIcons(variant)[index]
    ensures index >= 3 ==> r == Trophy
    ensures r != ""
  {
    var icons := CertificationIcons(variant);
    if index < |icons| && icons[index] != "" then icons[index] else Trophy
  }

  // ---------------------------------------------------------------- opening hours

  /** The `daysMap` of the footer. */
  function FrenchDay(key: string): (r: Option<string>)
    ensures r.Some? <==> Seo.IsWeekdayKey(key)
  {
    match key
    case "monday" => Some("Lundi")
    case "tuesday" => Some("Mardi")
    case "wednesday" => Some("Mercredi")
    case "thursday" => Some("Jeudi")
    case "friday" => Some("Vendredi")
    case "saturday" => Some("Samedi")
    case "sunday" => Some("Dimanche")
    case _ => None
  }

  /** A table row; `day` is `undefined` for a key outside the map. */
  datatype HoursRow = HoursRow(day: Option<string>, hours: string)

  const Closed := "Fermé"

  /** `value || 'Fermé'`. */
  function HoursText(value: Option<string>): (r: string)
    ensures Truthy(value) ==> r == value.value
    ensures !Truthy(value) ==> r == Closed
    ensures r != ""
  {
    if Truthy(value) then value.value else Closed
  }

  function RowOf(field: Field): Option<HoursRow> {
    if field.key != "emergency" then Some(HoursRow(FrenchDay(field.key), HoursText(field.value))) else None
  }

  /** `formatOpeningHours()`. */
  function FormatOpeningHours(openingHours: Option<JsRecord>): (r: seq<HoursRow>)
    ensures openingHours.None? ==> r == []
    ensures openingHours.Some? ==> |r| <= |openingHours.value|
  {
    match openingHours
    case None => []
    case Some(h) => Seqs.FilterMap(h, RowOf)
  }

  /** Without an "emergency" key there is one row per key, in key order, with the French
      day name and the hours text. */
  lemma RowsPerKey(h: JsRecord)
    requires forall i :: 0 <= i < |h| ==> h[i].key != "emergency"
    ensures |FormatOpeningHours(Some(h))| == |h|
    ensures forall i :: 0 <= i < |h| ==>
      FormatOpeningHours(Some(h))[i] == HoursRow(FrenchDay(h[i].key), HoursText(h[i].value))
  {
    Seqs.FilterMapAllKept(h, RowOf);
  }

  /** The "emergency" entry is dropped wherever it stands, and the other rows keep their order. */
  lemma EmergencyDropped(a: JsRecord, value: Option<string>, b: JsRecord)
    ensures FormatOpeningHours(Some(a + [Field("emergency", value)] + b))
         == FormatOpeningHours(Some(a)) + FormatOpeningHours(Some(b))
  {
    Seqs.FilterMapAppend(a + [Field("emergency", value)], b, RowOf);
    Seqs.FilterMapSnoc(a, Field("emergency", value), RowOf);
  }

  /** Every listed day carries hours: an empty entry reads "Fermé". */
  lemma RowsHaveHours(openingHours: Option<JsRecord>)
    ensures forall k :: 0 <= k < |FormatOpeningHours(openingHours)| ==> FormatOpeningHours(openingHours)[k].hours != ""
  {
    if openingHours.Some? {
      forall k | 0 <= k < |FormatOpeningHours(openingHours)| ensures FormatOpeningHours(openingHours)[k].hours != "" {
        Seqs.FilterMapMember(openingHours.value, RowOf, FormatOpeningHours(openingHours)[k]);
      }
    }
  }

  // ---------------------------------------------------------------- telephone link

  /** The `href` of the telephone link. */
  function TelHref(phone: string): (r: string)
    ensures |r| >= 4 && r[..4] == "tel:"
    ensures NoWhitespace(r[4..])
    ensures NoWhitespace(phone) ==> r == "tel:" + phone
  {
    var digits := StripWhitespace(phone);
    var r := "tel:" + digits;
    assert r[4..] == digits;
    r
  }

  /** The link keeps exactly the phone's non-whitespace characters. */
  lemma TelKeepsCharacters(phone: string, c: char)
    ensures c in TelHref(phone)[4..] <==> c in phone && !IsWhitespace(c)
  {
    Seqs.FilterMapMember(phone, KeepNonWhitespace, c);
    assert TelHref(phone)[4..] == Seqs.FilterMap(phone, KeepNonWhitespace);
    if c in phone && !IsWhitespace(c) {
      var i :| 0 <= i < |phone| && phone[i] == c;
      assert KeepNonWhitespace(phone[i]) == Some(c);
    }
  }

  /** Building the link works piece by piece: the number's characters are kept in order,
      each once, and only its whitespace is dropped. */
  lemma TelHrefAppend(a: string, b: string)
    ensures TelHref(a + b) == TelHref(a) + StripWhitespace(b)
  {
    StripWhitespaceAppend(a, b);
  }

  /** Two whitespace-free parts separated by a whitespace run are joined with nothing in
      between: "06 12" gives "tel:0612". */
  lemma TelHrefSpaced(a: string, w: string, b: string)
    requires NoWhitespace(a) && AllWhitespace(w) && NoWhitespace(b)
    ensures TelHref(a + w + b) == "tel:" + a + b
  {
    TelHrefAppend(a + w, b);
    StripWhitespaceAppend(a, w);
    StripAllWhitespace(w);
    assert StripWhitespace(a + w) == a;
  }

  // ---------------------------------------------------------------- social block

  /** `Object.values(socialMedia).some(Boolean)`. */
  function AnyTruthy(socialMedia: JsRecord): (r: bool)
    ensures r <==> exists i :: 0 <= i < |socialMedia| && Truthy(socialMedia[i].value)
  {
    if socialMedia == [] then false
    else
      assert forall i :: 0 < i < |socialMedia| ==> socialMedia[i] == socialMedia[1..][i - 1];
      Truthy(socialMedia[0].value) || AnyTruthy(socialMedia[1..])
  }

  /** Whether the "Suivez-nous" block is shown. */
  predicate ShowSocial(socialMedia: Option<JsRecord>) {
    socialMedia.Some? && AnyTruthy(socialMedia.value)
  }

  /** The block is shown exactly when the structured data lists at least one profile. */
  lemma ShowSocialIffSameAs(socialMedia: Option<JsRecord>)
    ensures ShowSocial(socialMedia) <==> socialMedia.Some? && Seo.SameAsOf(socialMedia.value) != []
  {
    if socialMedia.Some? {
      var sm := socialMedia.value;
      if AnyTruthy(sm) {
        var i :| 0 <= i < |sm| && Truthy(sm[i].value);
        Seqs.FilterMapMember(sm, Seo.SocialUrl, sm[i].value.value);
      } else {
        Seqs.FilterMapNoneKept(sm, Seo.SocialUrl);
      }
    }
  }
}
