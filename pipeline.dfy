/** prepare_data followed by get_features, as the driver runs them. */
module Pipeline {
  import opened Wrappers
  import opened Rows
  import opened Prepare
  import opened Features

  /** The features do not depend on how the melt was split into chunks:
      they are those of the table melted in one piece. */
  lemma FeaturesIgnoreChunking(table: seq<WideRow>)
    requires AllWellFormed(table) && Prepared(table).Ok?
    ensures GetFeatures(Prepared(table).value) == GetFeatures(Unchunked(table))
  {
    PreparedMatchesUnchunked(table);
    FeaturesPermutation(Prepared(table).value, Unchunked(table));
  }
}
