/**
 * `is_valid_expression` of the C++ variant: the input is rejected when it is empty or a
 * single blank, and otherwise accepted exactly when every whitespace-delimited token of
 * it starts with a number `std::stod` can read.
 */
module CppValidator {
  import opened Results
  import opened CppStrings

  /** Every token of `s`, read in turn by `iss >> token`, converts with `std::stod`. */
  predicate ChunksConvert(s: string)
    decreases |s|
  {
    var t := FirstToken(s);
    t == [] || (Stod(t).Some? && ChunksConvert(AfterFirstToken(s)))
  }

  /** What `is_valid_expression` returns. */
  predicate IsValid(s: string)
  {
    s != "" && s != " " && ChunksConvert(s)
  }

  /** Every string of `ts` converts with `std::stod`. */
  predicate AllConvert(ts: seq<string>)
  {
    ts == [] || (Stod(ts[0]).Some? && AllConvert(ts[1..]))
  }

  /** The token-by-token test agrees with "every token of `s` converts". */
  lemma {:induction false} ChunksConvertAll(s: string)
    ensures ChunksConvert(s) <==> AllConvert(Chunks(s))
    decreases |s|
  {
    var t := FirstToken(s);
    if s != [] && t != [] {
      var rest := AfterFirstToken(s);
      ChunksConvertAll(rest);
      var ts := Chunks(s);
      assert ts == [t] + Chunks(rest);
      assert ts[0] == t && ts[1..] == Chunks(rest);
    }
  }

  /**
   * The C++ loop: `while (iss)` reads a fresh token, tests it with `std::stod` when it
   * is not empty, and stops once a read fails (no token left). A throwing `stod`
   * makes the function return false.
   */
  method IsValidExpression(input: string) returns (valid: bool)
    ensures valid == IsValid(input)
  {
    if input == "" || input == " " {
      return false;
    }
    var rest := input;
    var good := true;
    while good
      invariant good ==> (ChunksConvert(input) <==> ChunksConvert(rest))
      invariant !good ==> ChunksConvert(input)
      decreases |rest| + (if good then 1 else 0)
    {
      var token := FirstToken(rest);
      if token == [] {
        good := false;
      } else if Stod(token).None? {
        return false;
      }
      rest := AfterFirstToken(rest);
    }
    return true;
  }
}
