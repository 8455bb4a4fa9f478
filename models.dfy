/**
 * The listing record that every source produces: one discovered space.
 * Its identity is its link and nothing else.
 */
module Models {
  import opened Wrappers

  /**
   * A listing as scraped. Price, area and address are free text; the
   * coordinates are absent when the source page shows no map data, and the
   * full text is empty unless a detail page was fetched.
   */
  datatype Listing = Listing(
    title: string,
    price: string,
    sqft: string,
    address: string,
    link: string,
    source: string,
    lat: Option<real>,
    lng: Option<real>,
    fullText: string)
  {
    /** The key the pipeline deduplicates on. */
    function UniqueKey(): string {
      link
    }
  }

  /** Construction with the six required fields; the optional ones take their defaults. */
  function NewListing(title: string, price: string, sqft: string, address: string,
                      link: string, source: string): (l: Listing)
    ensures l.title == title && l.price == price && l.sqft == sqft
    ensures l.address == address && l.link == link && l.source == source
    ensures l.lat == None && l.lng == None && l.fullText == ""
    ensures l.UniqueKey() == link
  {
    Listing(title, price, sqft, address, link, source, None, None, "")
  }

  /** Two listings are the same entity exactly when their links are equal. */
  lemma KeyIsLinkOnly(a: Listing, b: Listing)
    ensures a.UniqueKey() == b.UniqueKey() <==> a.link == b.link
  {
  }
}
