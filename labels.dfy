/**
 * The fixed table `parse_report` maps each parameter label of a bulletin
 * through: the key the parameter is stored under and its Romanian name.
 */
module LabelTable {
  datatype LabelEntry = LabelEntry(key: string, roName: string)

  /** The 28 chemical and 7 microbiological labels a bulletin may use. */
  const Labels: map<string, LabelEntry> := map[
    // Chemical
    "Miros*" := LabelEntry("smell", "Miros"),
    "Gust*" := LabelEntry("taste", "Gust"),
    "Culoare*" := LabelEntry("color", "Culoare"),
    "pH" := LabelEntry("ph", "pH"),
    "Conductivitate" := LabelEntry("conductivitate", "Conductivitate"),
    "Amoniu" := LabelEntry("amoniu", "Amoniu"),
    "Nitriti" := LabelEntry("nitriti", "Nitriti"),
    "Nitrati" := LabelEntry("nitrati", "Nitrati"),
    "Fier" := LabelEntry("fier", "Fier"),
    "Oxidabilitate" := LabelEntry("oxidabilitate", "Oxidabilitate"),
    "Duritate totala" := LabelEntry("duritate_totala", "Duritate totala"),
    "Aluminiu" := LabelEntry("aluminiu", "Aluminiu"),
    "Clor rezidual liber" := LabelEntry("clor_rezidual_liber", "Clor rezidual liber"),
    "Turbiditate" := LabelEntry("turbiditate", "Turbiditate"),
    "Cloruri" := LabelEntry("cloruri", "Cloruri"),
    "Calciu*" := LabelEntry("calcium", "Calciu"),
    "Alcalinitate*" := LabelEntry("alcalinitate", "Alcalinitate"),
    "Sulfat*" := LabelEntry("sulfat", "Sulfat"),
    "Bor*" := LabelEntry("bor", "Bor"),
    "Cianuri libere*" := LabelEntry("cianuri", "Cianuri libere"),
    "Fluoruri*" := LabelEntry("fluoruri", "Fluoruri"),
    "Zinc*" := LabelEntry("zinc", "Zinc"),
    "Arsen*" := LabelEntry("arsen", "Arsen"),
    "Sulfuri si hidrogen sulfurat*" := LabelEntry("sulfuri", "Sulfuri si hidrogen sulfurat"),
    "Substante tensio-active*" := LabelEntry("subst_tensio-active", "Substante tensio-active"),
    "Potasiu*" := LabelEntry("potasiu", "Potasiu"),
    "Fenoli*" := LabelEntry("fenoli", "Fenoli"),
    "Fosfati*" := LabelEntry("fosfati", "Fosfati"),
    // Microbiological
    "Bacteriilor coliforme" := LabelEntry("coliform_bacteria", "Bacterii coliforme"),
    "Escherichia coli" := LabelEntry("escherichia_coli", "Escherichia coli"),
    // The source gives enterococci the Romanian name of E. coli; kept as it is.
    "Enterococi" := LabelEntry("enterococcus", "Escherichia coli"),
    "Clostridium Perfringens" := LabelEntry("clostridium_perfringens", "Clostridium Perfringens"),
    "Numar de colonii la 22\U{00B0} C" := LabelEntry("colonii_22", "Numar de colonii la 22\U{00B0} C"),
    "Numar de colonii la 36\U{00B0} C" := LabelEntry("colonii_36", "Numar de colonii la 36\U{00B0} C"),
    "Pseudomonas Aeruginosa" := LabelEntry("pseudomonas_aeruginosa", "Pseudomonas Aeruginosa")
  ]
}
