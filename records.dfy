/**
 * The three record types of the pipeline. Lombok generates their getters
 * and setters; nothing calls a setter after construction, so each record
 * is an immutable value here.
 */
module Records {
  import opened Wrappers

  /** Java's 32-bit int. */
  newtype int32 = x: int | -0x8000_0000 <= x < 0x8000_0000

  /**
   * A point (Location.java). The id is null when a JSON document leaves it
   * out; doubles are modelled as reals.
   */
  datatype Location = Location(id: Option<string>, latitude: real, longitude: real)

  /**
   * Descriptive data for a point (Metadata.java). The Java field `type` is
   * called `category` here (`type` is a Dafny keyword); like the id it is
   * null when a JSON document leaves it out.
   */
  datatype Metadata = Metadata(id: Option<string>, category: Option<string>, rating: real, reviews: int32)

  /** The join of the two inputs for one id (MergedData.java); a missing side is None. */
  datatype MergedData = MergedData(id: string, location: Option<Location>, metadata: Option<Metadata>) {

    /** isComplete: both sides are present. */
    predicate IsComplete() {
      location.Some? && metadata.Some?
    }
  }

  /**
   * The constructor keeps its arguments unchanged, and the record it builds is
   * complete exactly when neither the location nor the metadata is null,
   * whatever the id.
   */
  lemma MergedDataConstruction(id: string, location: Option<Location>, metadata: Option<Metadata>)
    ensures var d := MergedData(id, location, metadata);
      && d.id == id && d.location == location && d.metadata == metadata
      && (location.None? ==> !d.IsComplete())
      && (metadata.None? ==> !d.IsComplete())
      && (location.Some? && metadata.Some? ==> d.IsComplete())
  {
  }
}
