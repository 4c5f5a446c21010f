/** The code-to-name lookup tables of config/settings.py. */
module Settings {

  /** Eurostat `src_crf` sector codes to sector names. */
  const SectorMap: map<string, string> := map[
    "TOTXMEMO" := "Total (excluding memo items)",
    "CRF1" := "Energy",
    "CRF2" := "Industrial processes and product use",
    "CRF3" := "Agriculture",
    "CRF4" := "Land use, land use change  and forestry (LULUCF)",
    "CRF5" := "Waste management",
    "CRF6" := "Other sectors"
  ]

  /** Eurostat `geo` country codes to country names. */
  const CountryMap: map<string, string> := map[
    "BE" := "Belgium", "BG" := "Bulgaria", "CZ" := "Czechia",
    "DK" := "Denmark", "DE" := "Germany", "EE" := "Estonia",
    "IE" := "Ireland", "EL" := "Greece", "ES" := "Spain",
    "FR" := "France", "HR" := "Croatia", "IT" := "Italy",
    "CY" := "Cyprus", "LV" := "Latvia", "LT" := "Lithuania",
    "LU" := "Luxembourg", "HU" := "Hungary", "MT" := "Malta",
    "NL" := "Netherlands", "AT" := "Austria", "PL" := "Poland",
    "PT" := "Portugal", "RO" := "Romania", "SI" := "Slovenia",
    "SK" := "Slovakia", "FI" := "Finland", "SE" := "Sweden",
    "NO" := "Norway", "IS" := "Iceland",
    "EU27_2020" := "EU (27 countries, from 2020)"
  ]
}
