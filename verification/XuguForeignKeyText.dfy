/** The ALTER TABLE statement of a foreign key, read back from its SQL words. */
module XuguForeignKeyText {
  import opened Text
  import opened QuotedIdentifiers
  import opened XuguSplit
  import opened XuguCatalogText

  // ---- a reader of the statement ----

  /** What is left of the text behind a word that it starts with. */
  function Skip(word: string, s: string): Option<string> { if word <= s then Some(s[|word|..]) else None }

  function Name(s: string): Option<(string, string)> {
    match ReadQuoted(s, 0)
    case NoIdentifier => None
    case Identifier(name, next) => ReadQuotedText(s, 0); Some((name, s[next..]))
  }

  /** Names between commas. */
  function Names(s: string): Option<(seq<string>, string)>
    decreases |s|
  {
    match Name(s)
    case None => None
    case Some((name, rest)) =>
      NameTakes(s);
      if ", " <= rest && Names(rest[2..]).Some? then
        Some(([name] + Names(rest[2..]).value.0, Names(rest[2..]).value.1))
      else Some(([name], rest))
  }

  lemma NameTakes(s: string)
    requires Name(s).Some?
    ensures |Name(s).value.1| < |s|
  {
    ReadQuotedText(s, 0);
  }

  /** The letter of the catalog for each action. */
  function Action(s: string): Option<(string, string)> {
    if "NO ACTION" <= s then Some(("n", s[9..]))
    else if "RESTRICT" <= s then Some(("r", s[8..]))
    else if "CASCADE" <= s then Some(("c", s[7..]))
    else if "SET NULL" <= s then Some(("u", s[8..]))
    else if "SET DEFAULT" <= s then Some(("d", s[11..]))
    else None
  }

  function ActionAfter(keyword: string, s: string): (string, string) {
    if Skip(keyword, s).Some? && Action(Skip(keyword, s).value).Some? then Action(Skip(keyword, s).value).value
        else ("", s)
  }

  function Match(s: string): (string, string) {
    if " MATCH FULL" <= s then ("a", s[11..]) else if " MATCH PARTIAL" <= s then ("p", s[14..]) else ("", s)
  }

  datatype Rules = Rules(match_: string, update: string, delete: string, deferrable: bool, initiallyDeferred: bool)

  function Tail(s: string): Option<Rules> {
    var (m, afterMatch) := Match(s);
    var (u, afterUpdate) := ActionAfter(" ON UPDATE ", afterMatch);
    var (d, rest) := ActionAfter(" ON DELETE ", afterUpdate);
    if rest == " NOT DEFERRABLE" then Some(Rules(m, u, d, false, false))
    else if rest == " DEFERRABLE INITIALLY DEFERRED" then Some(Rules(m, u, d, true, true))
    else if rest == " DEFERRABLE INITIALLY IMMEDIATE" then Some(Rules(m, u, d, true, false))
    else None
  }

  datatype ForeignKey = ForeignKey(
    schema: string, table: string, name: string, columns: seq<string>,
    referenceSchema: string, referenceTable: string, referenced: seq<string>, rules: Rules)

  /** The referenced table, with or without its schema. */
  function Target(s: string): Option<(string, string, string)> {
    match Name(s)
    case None => None
    case Some((first, rest)) =>
      if "." <= rest then
        match Name(rest[1..])
        case None => None
        case Some((second, more)) => Some((first, second, more))
      else Some(("", first, rest))
  }

  function ReadHead(s: string): Option<(string, string, string, string)> {
    match Skip("ALTER TABLE ", s)
    case None => None
    case Some(s1) =>
      match Name(s1)
      case None => None
      case Some((schema, s2)) =>
        match Skip(".", s2)
        case None => None
        case Some(s3) =>
          match Name(s3)
          case None => None
          case Some((table, s4)) =>
            match Skip(" ADD CONSTRAINT ", s4)
            case None => None
            case Some(s5) =>
              match Name(s5)
              case None => None
              case Some((name, s6)) => Some((schema, table, name, s6))
  }

  function ReadForeignKey(s: string): Option<ForeignKey> {
    match ReadHead(s)
    case None => None
    case Some((schema, table, name, s1)) =>
      match Skip(" FOREIGN KEY (", s1)
      case None => None
      case Some(s2) =>
        match Names(s2)
        case None => None
        case Some((columns, s3)) =>
          match Skip(") REFERENCES ", s3)
          case None => None
          case Some(s4) =>
            match Target(s4)
            case None => None
            case Some((referenceSchema, referenceTable, s5)) =>
              match Skip(" (", s5)
              case None => None
              case Some(s6) =>
                match Names(s6)
                case None => None
                case Some((referenced, s7)) =>
                  match Skip(")", s7)
                  case None => None
                  case Some(s8) =>
                    match Tail(s8)
                    case None => None
                    case Some(rules) =>
                      Some(ForeignKey(schema, table, name, columns, referenceSchema, referenceTable, referenced, rules))
  }

  // ---- what the catalog says ----

  /** The letters that the catalog uses, in upper or lower case, with any white space around. */
  function ActionLetter(value: string): string {
    var v := Lower(Trim(value));
    if v == "n" || v == "r" || v == "c" || v == "u" || v == "d" then v else ""
  }

  function MatchLetter(value: string): string {
    var v := Lower(Trim(value));
    if v == "a" || v == "p" then v else ""
  }

  function RulesOf(c: Constraint): Rules {
    Rules(MatchLetter(c.matchType), ActionLetter(c.updateAction), ActionLetter(c.deleteAction),
          c.deferrable, c.deferrable && c.initiallyDeferred)
  }

  // ---- reading what is printed ----

  lemma Skipped(word: string, rest: string)
    ensures Skip(word, word + rest) == Some(rest)
  {
  }

  lemma NameBack(name: string, rest: string)
    requires NoQuoteNext(rest)
    ensures Name(QuoteIdentifier(name) + rest) == Some((name, rest))
  {
    QuoteThenRead("", name, rest);
    assert "" + QuoteIdentifier(name) + rest == QuoteIdentifier(name) + rest;
    assert (QuoteIdentifier(name) + rest)[|QuoteIdentifier(name)|..] == rest;
  }

  lemma {:induction false} NamesBack(names: seq<string>, rest: string)
    requires names != [] && rest != "" && rest[0] == ')'
    ensures Names(QuotedList(names) + rest) == Some((names, rest))
    decreases |names|
  {
    hide QuoteIdentifier, Name;
    var q := QuoteIdentifier(names[0]);
    if |names| == 1 {
      assert QuotedList(names) == q;
      NameBack(names[0], rest);
      assert !(", " <= rest);
      assert [names[0]] == names;
    } else {
      assert QuoteAll(names)[1..] == QuoteAll(names[1..]);
      var more := QuotedList(names[1..]) + rest;
      assert QuotedList(names) + rest == q + (", " + more);
      NameBack(names[0], ", " + more);
      NamesBack(names[1..], rest);
      assert (", " + more)[2..] == more;
      assert [names[0]] + names[1..] == names;
    }
  }

  lemma LetterCase(value: string)
    ensures Lower(Trim(value)) == "n" <==> Upper(Trim(value)) == "N"
    ensures Lower(Trim(value)) == "r" <==> Upper(Trim(value)) == "R"
    ensures Lower(Trim(value)) == "c" <==> Upper(Trim(value)) == "C"
    ensures Lower(Trim(value)) == "u" <==> Upper(Trim(value)) == "U"
    ensures Lower(Trim(value)) == "d" <==> Upper(Trim(value)) == "D"
    ensures Lower(Trim(value)) == "a" <==> Upper(Trim(value)) == "A"
    ensures Lower(Trim(value)) == "p" <==> Upper(Trim(value)) == "P"
  {
    var v := Trim(value);
    if |v| == 1 {
      assert Lower(v) == [LowerChar(v[0])] && Upper(v) == [UpperChar(v[0])];
      OneLetter(v[0]);
    }
  }

  lemma OneLetter(c: char)
    ensures forall k: char | 'a' <= k <= 'z' :: LowerChar(c) == k <==> UpperChar(c) == UpperChar(k)
  {
  }

  lemma ActionBack(value: string, rest: string)
    ensures var text := ReferentialAction(value); var letter := ActionLetter(value);
      if letter == "" then text == "" else text != "" && Action(text + rest) == Some((letter, rest))
  {
    hide Trim;
    LetterCase(value);
    hide Upper, Lower;
    var text := ReferentialAction(value);
    WordsRead(rest);
  }

  lemma WordsRead(rest: string)
    ensures Action("NO ACTION" + rest) == Some(("n", rest)) && Action("RESTRICT" + rest) == Some(("r", rest))
    ensures Action("CASCADE" + rest) == Some(("c", rest)) && Action("SET NULL" + rest) == Some(("u", rest))
    ensures Action("SET DEFAULT" + rest) == Some(("d", rest))
  {
    NoActionRead(rest);
    RestrictRead(rest);
    CascadeRead(rest);
    SetNullRead(rest);
    SetDefaultRead(rest);
  }

  lemma NoActionRead(rest: string)
    ensures Action("NO ACTION" + rest) == Some(("n", rest))
  {
    Skipped("NO ACTION", rest);
  }

  lemma RestrictRead(rest: string)
    ensures Action("RESTRICT" + rest) == Some(("r", rest))
  {
    var s := "RESTRICT" + rest;
    Skipped("RESTRICT", rest);
    assert s[0] == 'R' && "NO ACTION"[0] == 'N';
  }

  lemma CascadeRead(rest: string)
    ensures Action("CASCADE" + rest) == Some(("c", rest))
  {
    var s := "CASCADE" + rest;
    Skipped("CASCADE", rest);
    assert s[0] == 'C' && "NO ACTION"[0] == 'N' && "RESTRICT"[0] == 'R';
  }

  lemma SetNullRead(rest: string)
    ensures Action("SET NULL" + rest) == Some(("u", rest))
  {
    var s := "SET NULL" + rest;
    Skipped("SET NULL", rest);
    assert s[0] == 'S' && "NO ACTION"[0] == 'N' && "RESTRICT"[0] == 'R' && "CASCADE"[0] == 'C';
  }

  lemma SetDefaultRead(rest: string)
    ensures Action("SET DEFAULT" + rest) == Some(("d", rest))
  {
    var s := "SET DEFAULT" + rest;
    Skipped("SET DEFAULT", rest);
    assert s[0] == 'S' && "NO ACTION"[0] == 'N' && "RESTRICT"[0] == 'R' && "CASCADE"[0] == 'C';
    assert s[4] == 'D' && "SET NULL"[4] == 'N';
  }

  lemma ClauseBack(keyword: string, value: string, rest: string)
    requires keyword != "" && !(keyword <= rest)
    ensures ActionAfter(keyword, Clause(keyword, ReferentialAction(value)) + rest) == (ActionLetter(value), rest)
  {
    hide ReferentialAction, ActionLetter, Action;
    ActionBack(value, rest);
    var text := ReferentialAction(value);
    if text != "" {
      Skipped(keyword, text + rest);
      assert Clause(keyword, text) + rest == keyword + (text + rest);
    } else {
      assert "" + rest == rest;
    }
  }

  lemma MatchBack(value: string, rest: string)
    requires rest != "" && (|rest| > 1 ==> rest[1] != 'M')
    ensures Match(Clause(" ", MatchClause(value)) + rest) == (MatchLetter(value), rest)
  {
    hide Trim;
    LetterCase(value);
    hide Upper, Lower;
    assert " " + "MATCH FULL" == " MATCH FULL" && " " + "MATCH PARTIAL" == " MATCH PARTIAL";
    FullRead(rest);
    PartialRead(rest);
    NoMatch(rest);
    assert "" + rest == rest;
  }

  lemma FullRead(rest: string)
    ensures Match(" MATCH FULL" + rest) == ("a", rest)
  {
    Skipped(" MATCH FULL", rest);
  }

  lemma PartialRead(rest: string)
    ensures Match(" MATCH PARTIAL" + rest) == ("p", rest)
  {
    var s := " MATCH PARTIAL" + rest;
    Skipped(" MATCH PARTIAL", rest);
    assert s[7] == 'P' && " MATCH FULL"[7] == 'F';
  }

  lemma NoMatch(rest: string)
    requires rest != "" && (|rest| > 1 ==> rest[1] != 'M')
    ensures Match(rest) == ("", rest)
  {
    assert " MATCH FULL"[1] == 'M' && " MATCH PARTIAL"[1] == 'M';
  }

  /** Where the parts of the tail start. */
  lemma DeferralStarts(c: Constraint)
    ensures var s := Deferral(c); |s| > 4 && s[0] == ' ' && (s[1] == 'N' || s[1] == 'D')
  {
  }

  lemma NotPrefix(word: string, s: string, k: nat)
    requires k < |word| && k < |s| && word[k] != s[k]
    ensures !(word <= s)
  {
  }

  /** The rules printed behind the statement are read back as the letters and flags of the catalog. */
  lemma TailBack(c: Constraint)
    ensures Tail(Clauses(c)) == Some(RulesOf(c))
  {
    hide MatchClause, ReferentialAction, MatchLetter, ActionLetter, Match, ActionAfter, Clause;
    var deferral := Deferral(c);
    var del := Clause(" ON DELETE ", ReferentialAction(c.deleteAction)) + deferral;
    var upd := Clause(" ON UPDATE ", ReferentialAction(c.updateAction)) + del;
    DeferralStarts(c);
    DeleteStarts(c);
    UpdateStarts(c);
    MatchBack(c.matchType, upd);
    ClauseBack(" ON UPDATE ", c.updateAction, del);
    NotPrefix(" ON DELETE ", deferral, 1);
    ClauseBack(" ON DELETE ", c.deleteAction, deferral);
    DeferralBack(c);
  }

  lemma DeleteStarts(c: Constraint)
    ensures var del := Clause(" ON DELETE ", ReferentialAction(c.deleteAction)) + Deferral(c);
      |del| > 4 && del[1] in "OND" && !(" ON UPDATE " <= del)
  {
    hide ReferentialAction, Deferral;
    DeferralStarts(c);
    var text := ReferentialAction(c.deleteAction);
    var del := Clause(" ON DELETE ", text) + Deferral(c);
    if text != "" {
      assert del[1] == 'O' && del[4] == 'D';
      NotPrefix(" ON UPDATE ", del, 4);
    } else {
      assert del == Deferral(c);
      NotPrefix(" ON UPDATE ", del, 1);
    }
  }

  lemma UpdateStarts(c: Constraint)
    ensures var upd := Clause(" ON UPDATE ", ReferentialAction(c.updateAction))
        + (Clause(" ON DELETE ", ReferentialAction(c.deleteAction)) + Deferral(c));
      |upd| > 1 && upd[1] != 'M'
  {
    hide ReferentialAction, Deferral;
    DeleteStarts(c);
    var del := Clause(" ON DELETE ", ReferentialAction(c.deleteAction)) + Deferral(c);
    var text := ReferentialAction(c.updateAction);
    if text != "" {
      assert (Clause(" ON UPDATE ", text) + del)[1] == 'O';
    } else {
      assert Clause(" ON UPDATE ", text) + del == del;
    }
  }

  lemma DeferralBack(c: Constraint)
    ensures var s := Deferral(c);
      && (s == " NOT DEFERRABLE" <==> !c.deferrable)
      && (s == " DEFERRABLE INITIALLY DEFERRED" <==> c.deferrable && c.initiallyDeferred)
      && (s == " DEFERRABLE INITIALLY IMMEDIATE" <==> c.deferrable && !c.initiallyDeferred)
  {
    assert " NOT DEFERRABLE"[1] == 'N' && " DEFERRABLE INITIALLY DEFERRED"[1] == 'D';
    assert " DEFERRABLE INITIALLY IMMEDIATE"[1] == 'D';
    assert " DEFERRABLE INITIALLY DEFERRED"[22] == 'D' && " DEFERRABLE INITIALLY IMMEDIATE"[22] == 'I';
  }

  // ---- the whole statement ----

  lemma RegroupHead(s: string, t: string, n: string, x: string)
    ensures ("ALTER TABLE " + (s + ("." + (t + (" ADD CONSTRAINT " + (n + " FOREIGN KEY ")))))) + x
         == "ALTER TABLE " + (s + ("." + (t + (" ADD CONSTRAINT " + (n + (" FOREIGN KEY " + x))))))
  {
  }

  lemma HeadBack(schema: string, table: string, name: string, x: string)
    ensures ReadHead(Opening(schema, table, name) + x) == Some((schema, table, name, " FOREIGN KEY " + x))
  {
    hide QuoteIdentifier, Name, Skip;
    var s, t, n := QuoteIdentifier(schema), QuoteIdentifier(table), QuoteIdentifier(name);
    RegroupHead(s, t, n, x);
    var s6 := " FOREIGN KEY " + x;
    var s4 := " ADD CONSTRAINT " + (n + s6);
    var s2 := "." + (t + s4);
    Skipped("ALTER TABLE ", s + s2);
    NameBack(schema, s2);
    Skipped(".", t + s4);
    NameBack(table, s4);
    Skipped(" ADD CONSTRAINT ", n + s6);
    NameBack(name, s6);
  }

  lemma RegroupTarget(a: string, b: string, x: string)
    ensures " REFERENCES " + ((a + ".") + (b + " ")) + x == " REFERENCES " + (a + ("." + (b + (" " + x))))
    ensures " REFERENCES " + ("" + (b + " ")) + x == " REFERENCES " + (b + (" " + x))
  {
  }

  lemma TargetBack(c: Constraint, x: string) returns (rest: string)
    ensures References(c) + x == " REFERENCES " + rest
    ensures Target(rest)
      == Some((if Trim(c.referenceSchema) != "" then c.referenceSchema else "", c.referenceTable, " " + x))
  {
    hide QuoteIdentifier, Name, Trim;
    var a, b := QuoteIdentifier(c.referenceSchema), QuoteIdentifier(c.referenceTable);
    RegroupTarget(a, b, x);
    NameBack(c.referenceTable, " " + x);
    if Trim(c.referenceSchema) != "" {
      rest := a + ("." + (b + (" " + x)));
      NameBack(c.referenceSchema, "." + (b + (" " + x)));
      assert ("." + (b + (" " + x)))[1..] == b + (" " + x);
    } else {
      rest := b + (" " + x);
    }
  }

  /** Which statements are printed: none without a name, a definition, columns on both sides and a
      referenced table. */
  lemma PrintedWhen(schema: string, table: string, c: Constraint)
    ensures var (columns, referenced) := ForeignKeyColumns(Trim(c.definition));
      ForeignKeyAlterDDL(schema, table, c) != "" <==>
        Trim(c.name) != "" && Trim(c.definition) != "" && columns != [] && referenced != []
            && Trim(c.referenceTable) != ""
  {
    hide Trim, ForeignKeyColumns, QuotedList, References, Clauses;
    OpeningNotEmpty(schema, table, Trim(c.name));
  }

  lemma OpeningNotEmpty(schema: string, table: string, name: string)
    ensures Opening(schema, table, name) != ""
  {
    hide QuoteIdentifier;
  }

  /** The printed statement, read word by word, says what the catalog says: schema, table, constraint, both
      column lists, the referenced table with its schema if it has one, the match and action letters
      and the deferral flags. */
  lemma StatementReadsBack(schema: string, table: string, c: Constraint)
    requires ForeignKeyAlterDDL(schema, table, c) != ""
    ensures var (columns, referenced) := ForeignKeyColumns(Trim(c.definition));
      ReadForeignKey(ForeignKeyAlterDDL(schema, table, c)) == Some(ForeignKey(
        schema, table, Trim(c.name), columns, if Trim(c.referenceSchema) != "" then c.referenceSchema else "",
        c.referenceTable, referenced, RulesOf(c)))
  {
    hide QuotedList, Opening, References, Clauses, Trim, Names, ReadHead, Target, Tail, ForeignKeyColumns, RulesOf,
        Skip;
    PrintedWhen(schema, table, c);
    var (columns, referenced) := ForeignKeyColumns(Trim(c.definition));
    var name := Trim(c.name);
    var s8 := Clauses(c);
    var s6 := QuotedList(referenced) + (")" + s8);
    var rest := TargetBack(c, "(" + s6);
    var s3 := ")" + (References(c) + ("(" + s6));
    var s2 := QuotedList(columns) + s3;
    assert ForeignKeyAlterDDL(schema, table, c) == Opening(schema, table, name) + ("(" + s2);
    HeadBack(schema, table, name, "(" + s2);
    assert " FOREIGN KEY " + ("(" + s2) == " FOREIGN KEY (" + s2;
    Skipped(" FOREIGN KEY (", s2);
    NamesBack(columns, s3);
    assert s3 == ") REFERENCES " + rest;
    Skipped(") REFERENCES ", rest);
    assert " " + ("(" + s6) == " (" + s6;
    Skipped(" (", s6);
    NamesBack(referenced, ")" + s8);
    Skipped(")", s8);
    TailBack(c);
  }
}
