/**
 * formatLabel: the heading shown above each KPI card, made from the KPI's
 * key by turning underscores into spaces and upper-casing the result.
 */
module Labels {
  import opened JsText

  /** `label.replace(/_/g, " ").toUpperCase()`. */
  function FormatLabel(key: string): (r: string)
    ensures |r| == |key|
    ensures '_' !in r
    ensures forall k :: 0 <= k < |r| ==> !('a' <= r[k] <= 'z')
    ensures forall k :: 0 <= k < |key| && key[k] == '_' ==> r[k] == ' '
    ensures forall k :: 0 <= k < |key| && 'a' <= key[k] <= 'z' ==> r[k] as int == key[k] as int - 32
    ensures forall k :: 0 <= k < |key| && key[k] != '_' && !('a' <= key[k] <= 'z') ==> r[k] == key[k]
  {
    var spaced := ReplaceChar(key, '_', ' ');
    var r := UpperCase(spaced);
    assert forall k :: 0 <= k < |r| ==> r[k] != '_' by {
      forall k | 0 <= k < |r| ensures r[k] != '_' {
        if 'a' <= spaced[k] <= 'z' {
          assert r[k] as int == spaced[k] as int - 32;
        }
      }
    }
    r
  }

  /** A formatted label is its own format: headings can be formatted again safely. */
  lemma FormatLabelIdempotent(key: string)
    ensures FormatLabel(FormatLabel(key)) == FormatLabel(key)
  {
  }

  /** The headings of the KPI cards for the keys of calculateKPIs' record. */
  lemma KpiHeadings()
    ensures FormatLabel("offered") == "OFFERED"
    ensures FormatLabel("ans_pct") == "ANS PCT"
    ensures FormatLabel("flow_out_pct") == "FLOW OUT PCT"
  {
    OfferedHeading("offered");
    AnsPctHeading("ans_pct");
    FlowOutPctHeading("flow_out_pct");
  }

  lemma OfferedHeading(key: string)
    requires key == "offered"
    ensures FormatLabel(key) == "OFFERED"
  {
  }

  lemma AnsPctHeading(key: string)
    requires key == "ans_pct"
    ensures FormatLabel(key) == "ANS PCT"
  {
  }

  lemma FlowOutPctHeading(key: string)
    requires key == "flow_out_pct"
    ensures FormatLabel(key) == "FLOW OUT PCT"
  {
  }
}
