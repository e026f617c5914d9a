/** The fixed schema, labels, thresholds and colours of the harvester core. */
module Config {

  /** A column of a sheet: (row key, header label). Legend descriptions reuse the shape: (name, text). */
  type Column = (string, string)

  const BaseColumns: seq<Column> := [
    ("name",         "Layer Name"),
    ("title",        "Title"),
    ("abstract",     "Abstract"),
    ("queryable",    "Queryable"),
    ("crs",          "CRS"),
    ("west_bound",   "West Bound Lon"),
    ("east_bound",   "East Bound Lon"),
    ("north_bound",  "North Bound Lat"),
    ("south_bound",  "South Bound Lat"),
    ("is_global",    "Is Global"),
    ("style_names",  "Style Name(s)"),
    ("keyword_list", "Keywords")
  ]

  const PdfHazardPrefix := "pdf:hazardlookup:"
  const NoPdfLabel := "not attached to PDF V2"

  const GlobalLonThreshold := 340
  const GlobalLatThreshold := 120

  /** The fills the report uses; the hex colour is what identifies each one. */
  datatype Fill = NoFill | HeaderFill | OddRowFill | EvenRowFill | GlobalRowFill

  function FillColor(f: Fill): string
  {
    match f
    case NoFill => ""
    case HeaderFill => "1F4E79"
    case OddRowFill => "D6E4F0"
    case EvenRowFill => "FFFFFF"
    case GlobalRowFill => "FFD700"
  }

  const BaseColumnDescriptions: seq<Column> := [
    ("Layer Name",       "The WMS layer identifier (e.g. GRAPHRASTER:fires_final)."),
    ("Title",            "Human-readable display name of the layer."),
    ("Abstract",         "Brief description of the layer's content or purpose."),
    ("Queryable",        "1 = layer supports GetFeatureInfo requests; 0 = display-only."),
    ("CRS",              "Comma-separated list of supported coordinate reference systems."),
    ("West Bound Lon",   "Western edge of the bounding box in decimal degrees (\U{2212}180 to 180)."),
    ("East Bound Lon",   "Eastern edge of the bounding box in decimal degrees (\U{2212}180 to 180)."),
    ("North Bound Lat",  "Northern edge of the bounding box in decimal degrees (\U{2212}90 to 90)."),
    ("South Bound Lat",  "Southern edge of the bounding box in decimal degrees (\U{2212}90 to 90)."),
    ("Is Global",        "'Yes' when the layer's bbox spans \U{2265} 340\U{B0} longitude "
                         + "AND \U{2265} 120\U{B0} latitude, indicating worldwide coverage. "
                         + "'No' for regional or country-level layers."),
    ("Style Name(s)",    "Comma-separated WMS style names available for this layer."),
    ("Keywords",         "Full keyword_list from the capabilities document, comma-separated.")
  ]

  /** One entry of the colour key: fill, hex colour, short caption, meaning. */
  datatype Highlight = Highlight(fill: Fill, hex: string, caption: string, meaning: string)

  const RowHighlights: seq<Highlight> := [
    Highlight(GlobalRowFill, "FFD700", "Global layer",
              "Row highlighted in yellow \U{2014} bbox qualifies as worldwide coverage (Is Global = Yes)."),
    Highlight(OddRowFill, "D6E4F0", "Odd data row",
              "Light blue alternating row \U{2014} regional or country-level layer (Is Global = No)."),
    Highlight(EvenRowFill, "FFFFFF", "Even data row",
              "White alternating row \U{2014} regional or country-level layer (Is Global = No).")
  ]
}
