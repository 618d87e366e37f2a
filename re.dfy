/** Python's `re` engine is not modelled: a compiled pattern is represented by
    its source text together with the predicate the engine decides for it. */
module Re {

  /** A compiled regular expression. `matchesAtStart(s)` stands for
      `re.compile(source).match(s) is not None`: the pattern matches some
      prefix of `s`, starting at index 0. */
  datatype Pattern = Pattern(source: string, matchesAtStart: string -> bool)
}
