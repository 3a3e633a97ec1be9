/** The operator symbols the filter and the domain-expression grammars share. */
module Operators {
  import opened Tokenizer
  import opened Reading

  const OPERATOR_TABLE := Table(["&&", "||", "!", "(", ")"], {'&', '|', '!', '(', ')'})

  /** The same with the list separator. */
  const COMMA_TABLE := Table(["&&", "||", "!", "(", ")", ","], {'&', '|', '!', '(', ')', ','})

  predicate IsOperators(t: Table) {
    t == OPERATOR_TABLE || t == COMMA_TABLE
  }

  /** The symbols, one by one. */
  lemma SymbolCases(t: Table, s: string)
    requires IsOperators(t)
    ensures s in t.symbols <==>
      s == "&&" || s == "||" || s == "!" || s == "(" || s == ")" || (s == "," && t == COMMA_TABLE)
  {
    assert t.symbols[0] == "&&" && t.symbols[1] == "||" && t.symbols[2] == "!"
        && t.symbols[3] == "(" && t.symbols[4] == ")";
    if t == COMMA_TABLE {
      assert t.symbols[5] == ",";
    } else {
      assert |OPERATOR_TABLE.symbols| != |COMMA_TABLE.symbols|;
    }
  }

  lemma SymbolTexts(t: Table, s: string)
    requires IsOperators(t) && s in t.symbols
    ensures s != "" && NoSpace(s) && s[0] in t.leading
  {
    SymbolCases(t, s);
  }

  lemma LeadingStarts(t: Table, c: char)
    requires IsOperators(t) && c in t.leading
    ensures exists s :: s in t.symbols && s != "" && s[0] == c
  {
    var s := if c == '&' then "&&" else if c == '|' then "||" else [c];
    SymbolCases(t, s);
    assert s[0] == c;
  }

  lemma OperatorsValid(t: Table)
    requires IsOperators(t)
    ensures ValidTable(t) && DistinctStarts(t.symbols)
  {
    forall s, r | s in t.symbols && r in t.symbols && s != "" && r != "" && s[0] == r[0] ensures s == r {
      SymbolCases(t, s);
      SymbolCases(t, r);
    }
    forall i | 0 <= i < |t.symbols| ensures t.symbols[i] != "" && NoSpace(t.symbols[i]) {
      SymbolTexts(t, t.symbols[i]);
    }
    forall c ensures c in t.leading <==> exists s :: s in t.symbols && s != "" && s[0] == c { LeadingExact(t, c); }
    hide IsSpace, NoSpace;
  }

  lemma LeadingExact(t: Table, c: char)
    requires IsOperators(t)
    ensures c in t.leading <==> exists s :: s in t.symbols && s != "" && s[0] == c
  {
    if c in t.leading { LeadingStarts(t, c); }
    hide IsOperators;
    forall s | s in t.symbols && s != "" && s[0] == c ensures c in t.leading { SymbolTexts(t, s); }
  }

  // ---------------------------------------------------------------------------
  // Reading printed text

  lemma SignReads(t: Table, sign: string, rest: string)
    requires IsOperators(t) && (sign == "!" || sign == "&&" || sign == "||" || sign == "(" || sign == ")")
    ensures Reads(t, sign, [S(sign)], rest)
  {
    OperatorsValid(t);
    SymbolCases(t, sign);
    hide ValidTable, DistinctStarts, Reads;
    ReadsDistinct(t, sign, rest);
  }

  /** "!" text. */
  lemma NegatedReads(t: Table, text: string, keys: seq<TokenKey>, rest: string)
    requires IsOperators(t) && Reads(t, text, keys, rest)
    ensures Reads(t, "!" + text, [S("!")] + keys, rest)
  {
    hide Reads, IsOperators;
    SignReads(t, "!", text + rest);
    ReadsConcat(t, "!", [S("!")], text, keys, rest);
  }

  /** "(" text ")". */
  lemma EnclosedReads(t: Table, text: string, keys: seq<TokenKey>, rest: string)
    requires IsOperators(t) && Reads(t, text, keys, ")" + rest)
    ensures Reads(t, "(" + (text + ")"), [S("(")] + (keys + [S(")")]), rest)
  {
    hide Reads, IsOperators;
    SignReads(t, ")", rest);
    ReadsConcat(t, text, keys, ")", [S(")")], rest);
    SignReads(t, "(", (text + ")") + rest);
    ReadsConcat(t, "(", [S("(")], text + ")", keys + [S(")")], rest);
  }

  /** left op right. */
  lemma InfixReads(t: Table, l: string, kl: seq<TokenKey>, op: string, r: string, kr: seq<TokenKey>, rest: string)
    requires IsOperators(t) && (op == "&&" || op == "||") && Reads(t, r, kr, rest)
    requires Reads(t, l, kl, (" " + (op + (" " + r))) + rest)
    ensures Reads(t, l + (" " + (op + (" " + r))), kl + ([S(op)] + kr), rest)
  {
    hide Reads, IsOperators;
    ReadsSpace(t, r + rest);
    ReadsConcat(t, " ", [], r, kr, rest);
    assert [] + kr == kr;
    SignReads(t, op, (" " + r) + rest);
    ReadsConcat(t, op, [S(op)], " " + r, kr, rest);
    ReadsSpace(t, (op + (" " + r)) + rest);
    ReadsConcat(t, " ", [], op + (" " + r), [S(op)] + kr, rest);
    assert [] + ([S(op)] + kr) == [S(op)] + kr;
    ReadsConcat(t, l, kl, " " + (op + (" " + r)), [S(op)] + kr, rest);
  }
}
