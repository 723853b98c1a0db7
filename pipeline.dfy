/**
 * How the units meet in the object store: the raw key the ingestion Lambda
 * writes is one the transform job lists, and it determines the processed key.
 */
module Pipeline {
  import opened Text
  import GlueTransform
  import LambdaIngestion

  /** Text without `.` contains no `.json`. */
  lemma NoDotNoJson(x: string)
    requires '.' !in x
    ensures !Contains(x, GlueTransform.JsonSuffix)
  {
    forall i: nat | i <= |x|
      ensures !OccursAt(x, GlueTransform.JsonSuffix, i)
    {
      if i + 5 <= |x| {
        assert x[i..i + 5][0] == x[i] != '.';
      }
    }
  }

  /** Every raw object the ingestion Lambda writes is selected by the transform job's listing. */
  lemma RawKeyIsListed(cfg: LambdaIngestion.Config, pages: seq<GlueTransform.Page>)
    requires LambdaIngestion.RawKey(cfg) in GlueTransform.ListedKeys(pages)
    ensures LambdaIngestion.RawKey(cfg) in GlueTransform.JsonOnly(GlueTransform.ListedKeys(pages))
  {
    LambdaIngestion.RawKeyShape(cfg);
  }

  /**
   * For configuration values without `/` or `.` (currency codes and ISO
   * dates), the processed key of the ingested object is
   * `exchange_rates/exchange_rates_{BASE}_{START}_to_{END}.<format>`, a
   * function of the configured range: a rerun of the same range overwrites it.
   */
  lemma ProcessedKeyOfIngestedObject(cfg: LambdaIngestion.Config, format: GlueTransform.OutputFormat)
    requires '/' !in cfg.baseCurrency && '/' !in cfg.startDate && '/' !in cfg.endDate
    requires '.' !in cfg.baseCurrency && '.' !in cfg.startDate && '.' !in cfg.endDate
    ensures GlueTransform.OutKey(LambdaIngestion.RawKey(cfg), format) ==
            "exchange_rates/" + LambdaIngestion.RawName(cfg) + GlueTransform.Extension(format)
  {
    var x := LambdaIngestion.RawName(cfg);
    assert '/' !in x && '.' !in x by {
      assert '/' !in "exchange_rates_" && '.' !in "exchange_rates_";
      assert '/' !in "_to_" && '.' !in "_to_";
    }
    NoDotNoJson(x);
    assert LambdaIngestion.RawKey(cfg) == [] + x + GlueTransform.JsonSuffix;
    GlueTransform.OutKeyOfName([], x, format);
  }
}
