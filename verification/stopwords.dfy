/** The fixed set of German function words the vocabulary filter never reports. */
module StopWords {
  import opened Text

  /** The stop words, all in lower case. */
  const STOP_WORDS: set<String> := {
    "der", "die", "das", "und", "ist", "in", "zu", "den", "dem", "des",
    "mit", "auf", "für", "von", "ein", "eine", "einen", "sich", "aus",
    "dass", "nicht", "war", "aber", "man", "bei", "wie", "wir", "oder",
    "kann", "sind", "werden", "wird", "auch", "noch", "nur", "vor", "nach",
    "über", "wenn", "zum", "zur", "habe", "hat", "durch", "unter", "diese"
  }
}
