/** The configuration records of a client site (src/lib/configs/config.types.ts), reduced
    to the fields the generators and components read. */
module ConfigTypes {
  import opened Wrappers

  /** One own property of a plain JavaScript object. A record is the sequence of its
      properties in insertion order, which is the order `Object.entries` and
      `Object.values` report; `None` is a property that explicitly holds `undefined`. */
  datatype Field = Field(key: string, value: Option<string>)

  type JsRecord = seq<Field>

  /** JavaScript truthiness of an optional string: present and not empty. */
  predicate Truthy(v: Option<string>) {
    v.Some? && v.value != ""
  }

  /** Latitude and longitude are JavaScript numbers that are only copied; `real`
      stands for their exact values. */
  datatype Coordinates = Coordinates(lat: real, lng: real)

  datatype Address = Address(
    street: string,
    city: string,
    postalCode: string,
    country: string,
    coordinates: Option<Coordinates>)

  /** `openingHours` has the keys monday ... sunday and emergency; `socialMedia` has
      facebook, instagram, linkedin and twitter; both keep the author's key order. */
  datatype BusinessInfo = BusinessInfo(
    name: string,
    logo: Option<string>,
    phone: string,
    email: string,
    address: Address,
    openingHours: Option<JsRecord>,
    socialMedia: Option<JsRecord>)

  datatype SeoConfig = SeoConfig(
    title: string,
    description: string,
    keywords: seq<string>,
    ogImage: Option<string>,
    canonicalUrl: Option<string>)

  /** A service offered; `price` is display text such as "120€" or "Sur devis". */
  datatype Service = Service(title: string, description: string, price: Option<string>)
}
