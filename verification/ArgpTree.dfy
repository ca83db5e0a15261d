/** A tree of option tables (argp/argp.h). */
module ArgpTree {
  import opened Basics

  /** One entry of an option table; the entry that ends a table is not part of
      the sequence. */
  datatype ArgpOption = ArgpOption(
    name: Option<string>, key: int, hasArg: bool, isAlias: bool, isDoc: bool, argOptional: bool, hidden: bool)

  /** `struct argp`; a table may be missing, and so may the parser. */
  datatype Argp = Argp(options: Option<seq<ArgpOption>>, hasParser: bool, argsDoc: Option<string>, children: seq<Argp>)
}
