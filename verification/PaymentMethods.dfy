/** normalize_payment_method_input and the display labels of format_payment_method, on ASCII text. */
module PaymentMethods {
  import opened Model
  import opened Ascii

  datatype Outcome = NoMethod | Method(value: PaymentMethod) | Invalid

  /** PaymentMethod[name]: lookup by member name. */
  function ByName(name: string): Option<PaymentMethod> {
    if name == "TRANSFER" then Some(Transfer)
    else if name == "CASH" then Some(Cash)
    else if name == "POS" then Some(Pos)
    else if name == "CHEQUE" then Some(Cheque)
    else if name == "CARD" then Some(Card)
    else if name == "MOBILE_MONEY" then Some(MobileMoney)
    else if name == "OTHER" then Some(Other)
    else None
  }

  /** PaymentMethod(value): lookup by member value. */
  function ByValue(value: string): Option<PaymentMethod> {
    if value == "transfer" then Some(Transfer)
    else if value == "cash" then Some(Cash)
    else if value == "pos" then Some(Pos)
    else if value == "cheque" then Some(Cheque)
    else if value == "card" then Some(Card)
    else if value == "mobile_money" then Some(MobileMoney)
    else if value == "other" then Some(Other)
    else None
  }

  function Alias(key: string): Option<PaymentMethod> {
    if key == "bank_transfer" || key == "banktransfer" || key == "transfer" then Some(Transfer)
    else if key == "cash" then Some(Cash)
    else if key == "pos" || key == "point_of_sale" then Some(Pos)
    else if key == "cheque" || key == "check" then Some(Cheque)
    else if key == "card" || key == "credit_card" || key == "creditcard" then Some(Card)
    else if key == "debit_card" || key == "debitcard" then Some(Card)
    else if key == "mobile_money" || key == "mobilemoney" || key == "momo" then Some(MobileMoney)
    else if key == "other" then Some(Other)
    else None
  }

  function Label(m: PaymentMethod): string {
    match m
    case Transfer => "Bank Transfer"
    case Cash => "Cash"
    case Pos => "POS"
    case Cheque => "Cheque"
    case Card => "Credit Card"
    case MobileMoney => "Mobile Money"
    case Other => "Other"
  }

  predicate SpaceOrHyphen(c: char) { IsSpace(c) || c == '-' }

  predicate Underscore(c: char) { c == '_' }

  predicate Separator(c: char) { SpaceOrHyphen(c) || Underscore(c) }

  function DropRun(s: string, p: char -> bool): (r: string)
    ensures |r| <= |s|
  {
    if s != "" && p(s[0]) then DropRun(s[1..], p) else s
  }

  /** re.sub(r"[p]+", "_", s) */
  function CollapseRuns(s: string, p: char -> bool): string
    decreases |s|
  {
    if s == "" then ""
    else if p(s[0]) then "_" + CollapseRuns(DropRun(s[1..], p), p)
    else [s[0]] + CollapseRuns(s[1..], p)
  }

  /** s.replace("_", "") */
  function WithoutUnderscores(s: string): string {
    if s == "" then "" else (if s[0] == '_' then "" else [s[0]]) + WithoutUnderscores(s[1..])
  }

  function Normalize(input: string): Outcome {
    var cleaned := Strip(input);
    if cleaned == "" then NoMethod
    else if ByName(UpperAll(cleaned)).Some? then Method(ByName(UpperAll(cleaned)).value)
    else
      var normalized := CollapseRuns(CollapseRuns(LowerAll(cleaned), SpaceOrHyphen), Underscore);
      var joined := WithoutUnderscores(normalized);
      if Alias(normalized).Some? then Method(Alias(normalized).value)
      else if Alias(joined).Some? then Method(Alias(joined).value)
      else if ByValue(normalized).Some? then Method(ByValue(normalized).value)
      else Invalid
  }

  // ---------- What the result depends on ----------

  /** Trimmed, lower-cased, every run of spaces, hyphens and underscores as one underscore. */
  function Canonical(input: string): string { CollapseRuns(LowerAll(Strip(input)), Separator) }

  function Decide(canonical: string): Outcome {
    if canonical == "" then NoMethod
    else if Alias(canonical).Some? then Method(Alias(canonical).value)
    else if Alias(WithoutUnderscores(canonical)).Some? then Method(Alias(WithoutUnderscores(canonical)).value)
    else Invalid
  }

  /** Two passes, hyphens and spaces first, come to one pass over all separators. */
  lemma {:induction false} TwoPasses(s: string)
    ensures CollapseRuns(CollapseRuns(s, SpaceOrHyphen), Underscore) == CollapseRuns(s, Separator)
    decreases |s|, 1
  {
    if s == "" {
    } else {
      if Separator(s[0]) {
        if Underscore(s[0]) {
          var t := CollapseRuns(s[1..], SpaceOrHyphen);
          assert CollapseRuns(s, SpaceOrHyphen) == "_" + t;
          assert ("_" + t)[1..] == t;
          TwoPassesInRun(s[1..]);
        } else {
          var t := CollapseRuns(DropRun(s[1..], SpaceOrHyphen), SpaceOrHyphen);
          assert ("_" + t)[1..] == t;
          TwoPassesInRun(DropRun(s[1..], SpaceOrHyphen));
          DropTwice(s[1..]);
        }
      } else {
        var t := CollapseRuns(s[1..], SpaceOrHyphen);
        assert ([s[0]] + t)[1..] == t;
        TwoPasses(s[1..]);
      }
    }
  }

  lemma {:induction false} DropTwice(s: string)
    ensures DropRun(DropRun(s, SpaceOrHyphen), Separator) == DropRun(s, Separator)
  {
    if s == "" || !SpaceOrHyphen(s[0]) {
    } else {
      DropTwice(s[1..]);
    }
  }

  lemma {:induction false} TwoPassesInRun(s: string)
    ensures CollapseRuns(DropRun(CollapseRuns(s, SpaceOrHyphen), Underscore), Underscore) ==
            CollapseRuns(DropRun(s, Separator), Separator)
    decreases |s|, 2
  {
    if s == "" {
    } else if Separator(s[0]) {
      var rest := if Underscore(s[0]) then s[1..] else DropRun(s[1..], SpaceOrHyphen);
      var t := CollapseRuns(rest, SpaceOrHyphen);
      assert CollapseRuns(s, SpaceOrHyphen) == "_" + t;
      assert ("_" + t)[1..] == t;
      TwoPassesInRun(rest);
      if !Underscore(s[0]) { DropTwice(s[1..]); }
    } else {
      var t := CollapseRuns(s, SpaceOrHyphen);
      assert t == [s[0]] + CollapseRuns(s[1..], SpaceOrHyphen);
      assert DropRun(t, Underscore) == t;
      TwoPasses(s);
    }
  }

  /** Runs already collapsed: separators are single underscores. */
  predicate Collapsed(s: string) {
    forall i :: 0 <= i < |s| && Separator(s[i]) ==> s[i] == '_' && (i + 1 < |s| ==> !Separator(s[i + 1]))
  }

  lemma {:induction false} CollapsedStays(s: string)
    requires Collapsed(s)
    ensures CollapseRuns(s, Separator) == s
  {
    if s == "" {
    } else {
      assert forall i :: 0 <= i < |s[1..]| ==> s[1..][i] == s[i + 1];
      CollapsedStays(s[1..]);
    }
  }

  lemma LowerOfUpper(s: string)
    ensures LowerAll(UpperAll(s)) == LowerAll(s)
  {
  }

  /** The first lookup, by member name, never disagrees with the alias table. */
  lemma NameAgrees(cleaned: string)
    requires ByName(UpperAll(cleaned)).Some?
    ensures Alias(CollapseRuns(LowerAll(cleaned), Separator)) == ByName(UpperAll(cleaned))
  {
    var upper := UpperAll(cleaned);
    LowerOfUpper(cleaned);
    var lower := LowerAll(upper);
    LoweredNames(upper);
    CollapsedStays(lower);
  }

  predicate NameLowers(upper: string) {
    Collapsed(LowerAll(upper)) && Alias(LowerAll(upper)) == ByName(upper)
  }

  /** Lower-case letters only. */
  predicate Word(s: string) { forall i :: 0 <= i < |s| ==> 'a' <= s[i] <= 'z' }

  lemma WordIsCollapsed(s: string)
    requires Word(s)
    ensures Collapsed(s) && forall c :: c in s ==> !Separator(c)
  {
  }

  lemma JoinedIsCollapsed(a: string, b: string)
    requires Word(a) && Word(b) && b != ""
    ensures Collapsed(a + "_" + b)
  {
  }

  lemma MobileMoneyIsCollapsed()
    ensures Collapsed("mobile_money")
  {
    JoinedIsCollapsed("mobile", "money");
    hide Collapsed;
    assert "mobile_money" == "mobile" + "_" + "money";
  }

  lemma Lowers(upper: string, lower: string, m: PaymentMethod)
    requires LowerAll(upper) == lower && Collapsed(lower) && Alias(lower) == Some(m) == ByName(upper)
    ensures NameLowers(upper)
  {
    hide LowerAll, Collapsed, Alias, ByName;
  }

  lemma AliasTransfer()
    ensures Alias("transfer") == Some(Transfer) && ByName("TRANSFER") == Some(Transfer)
  {
  }

  lemma LowerTransfer()
    ensures NameLowers("TRANSFER")
  {
    AliasTransfer();
    assert Word("transfer");
    WordIsCollapsed("transfer");
    hide Alias, ByName, Collapsed, Word, LowerAll, NameLowers;
    assert LowerAll("TRANSFER") == "transfer";
    Lowers("TRANSFER", "transfer", Transfer);
  }

  lemma AliasCash()
    ensures Alias("cash") == Some(Cash) && ByName("CASH") == Some(Cash)
  {
  }

  lemma LowerCash()
    ensures NameLowers("CASH")
  {
    AliasCash();
    assert Word("cash");
    WordIsCollapsed("cash");
    hide Alias, ByName, Collapsed, Word, LowerAll, NameLowers;
    assert LowerAll("CASH") == "cash";
    Lowers("CASH", "cash", Cash);
  }

  lemma AliasPos()
    ensures Alias("pos") == Some(Pos) && ByName("POS") == Some(Pos)
  {
  }

  lemma LowerPos()
    ensures NameLowers("POS")
  {
    AliasPos();
    assert Word("pos");
    WordIsCollapsed("pos");
    hide Alias, ByName, Collapsed, Word, LowerAll, NameLowers;
    assert LowerAll("POS") == "pos";
    Lowers("POS", "pos", Pos);
  }

  lemma AliasCheque()
    ensures Alias("cheque") == Some(Cheque) && ByName("CHEQUE") == Some(Cheque)
  {
  }

  lemma LowerCheque()
    ensures NameLowers("CHEQUE")
  {
    AliasCheque();
    assert Word("cheque");
    WordIsCollapsed("cheque");
    hide Alias, ByName, Collapsed, Word, LowerAll, NameLowers;
    assert LowerAll("CHEQUE") == "cheque";
    Lowers("CHEQUE", "cheque", Cheque);
  }

  lemma AliasCard()
    ensures Alias("card") == Some(Card) && ByName("CARD") == Some(Card)
  {
  }

  lemma LowerCard()
    ensures NameLowers("CARD")
  {
    AliasCard();
    assert Word("card");
    WordIsCollapsed("card");
    hide Alias, ByName, Collapsed, Word, LowerAll, NameLowers;
    assert LowerAll("CARD") == "card";
    Lowers("CARD", "card", Card);
  }

  lemma AliasOther()
    ensures Alias("other") == Some(Other) && ByName("OTHER") == Some(Other)
  {
  }

  lemma LowerOther()
    ensures NameLowers("OTHER")
  {
    AliasOther();
    assert Word("other");
    WordIsCollapsed("other");
    hide Alias, ByName, Collapsed, Word, LowerAll, NameLowers;
    assert LowerAll("OTHER") == "other";
    Lowers("OTHER", "other", Other);
  }

  lemma AliasMobileMoney()
    ensures Alias("mobile_money") == Some(MobileMoney) && ByName("MOBILE_MONEY") == Some(MobileMoney)
  {
  }

  lemma LowerMobileMoney()
    ensures NameLowers("MOBILE_MONEY")
  {
    AliasMobileMoney();
    MobileMoneyIsCollapsed();
    hide Alias, ByName, Collapsed, LowerAll, NameLowers;
    assert LowerAll("MOBILE_MONEY") == "mobile_money";
    Lowers("MOBILE_MONEY", "mobile_money", MobileMoney);
  }

  lemma LoweredNames(upper: string)
    requires ByName(upper).Some?
    ensures NameLowers(upper)
  {
    hide NameLowers;
    LowerTransfer();
    LowerCash();
    LowerPos();
    LowerCheque();
    LowerCard();
    LowerMobileMoney();
    LowerOther();
  }

  lemma ValuesAreAliases(value: string)
    ensures ByValue(value).Some? ==> Alias(value) == ByValue(value)
  {
  }

  /**
   The result depends on the canonical form alone: the lookup by name is subsumed by the aliases and
   the final lookup by value can never succeed.
   */
  lemma NormalizeIsDecide(input: string)
    ensures Normalize(input) == Decide(Canonical(input))
  {
    var cleaned := Strip(input);
    TwoPasses(LowerAll(cleaned));
    ValuesAreAliases(Canonical(input));
    if ByName(UpperAll(cleaned)).Some? { NameAgrees(cleaned); }
  }

  // ---------- The vocabulary ----------

  /** What the alias table is for: the documented words for each method. */
  function Words(m: PaymentMethod): set<string> {
    match m
    case Transfer => {"transfer", "bank_transfer", "banktransfer"}
    case Cash => {"cash"}
    case Pos => {"pos", "point_of_sale"}
    case Cheque => {"cheque", "check"}
    case Card => {"card", "credit_card", "creditcard", "debit_card", "debitcard"}
    case MobileMoney => {"mobile_money", "mobilemoney", "momo"}
    case Other => {"other"}
  }

  /** The table reads each of these words as its method, and nothing else as any method. */
  lemma AliasExactly(key: string, m: PaymentMethod)
    ensures Alias(key) == Some(m) <==> key in Words(m)
  {
  }

  // ---------- Labels ----------

  predicate Separators(s: string) { s != "" && forall i :: 0 <= i < |s| ==> Separator(s[i]) }

  lemma {:induction false} DropSeparators(s: string, rest: string)
    requires (forall i :: 0 <= i < |s| ==> Separator(s[i])) && (rest != "" ==> !Separator(rest[0]))
    ensures DropRun(s + rest, Separator) == rest
  {
    if s == "" {
      assert s + rest == rest;
    } else {
      assert (s + rest)[1..] == s[1..] + rest;
      DropSeparators(s[1..], rest);
    }
  }

  /** A run of separators between two words becomes one underscore. */
  lemma {:induction false} CollapseWords(a: string, between: string, b: string)
    requires Word(a) && Word(b) && b != "" && Separators(between)
    ensures CollapseRuns(a + between + b, Separator) == a + "_" + b
  {
    var s := a + between + b;
    if a == "" {
      assert s[1..] == between[1..] + b;
      DropSeparators(between[1..], b);
      WordIsCollapsed(b);
      CollapsedStays(b);
    } else {
      assert s[1..] == a[1..] + between + b;
      CollapseWords(a[1..], between, b);
    }
  }

  lemma SeparatorsLowered(s: string)
    requires Separators(s)
    ensures LowerAll(s) == s
  {
  }

  lemma LowerAdds(a: string, b: string)
    ensures LowerAll(a + b) == LowerAll(a) + LowerAll(b)
  {
  }

  lemma NoSpaceInWord(text: string)
    requires text != "" && Word(LowerAll(text))
    ensures !IsSpace(text[0]) && !IsSpace(text[|text| - 1])
  {
    var lower := LowerAll(text);
    assert 'a' <= lower[0] <= 'z' && 'a' <= lower[|text| - 1] <= 'z';
  }

  /** One word in any case, with white space around it, is read as its alias. */
  lemma OneWordSpelled(before: string, text: string, after: string)
    requires AllSpace(before) && AllSpace(after) && text != "" && Word(LowerAll(text))
    ensures Normalize(before + text + after) == Decide(LowerAll(text))
  {
    NormalizeIsDecide(before + text + after);
    NoSpaceInWord(text);
    StripExactly(before, text, after);
    WordIsCollapsed(LowerAll(text));
    CollapsedStays(LowerAll(text));
    hide Normalize, Decide, Word, Strip, CollapseRuns, LowerAll;
  }

  /** Two words in any case, any separators between them and white space around, are read as word_word or wordword. */
  lemma TwoWordsSpelled(before: string, x: string, between: string, y: string, after: string)
    requires AllSpace(before) && AllSpace(after) && Separators(between) && x != "" && y != ""
    requires Word(LowerAll(x)) && Word(LowerAll(y))
    ensures var a, b := LowerAll(x), LowerAll(y);
            Normalize(before + (x + between + y) + after) ==
            if Alias(a + "_" + b).Some? then Method(Alias(a + "_" + b).value)
            else if Alias(a + b).Some? then Method(Alias(a + b).value)
            else Invalid
  {
    var text := x + between + y;
    NormalizeIsDecide(before + text + after);
    NoSpaceInWord(x);
    NoSpaceInWord(y);
    StripExactly(before, text, after);
    LowerAdds(x + between, y);
    LowerAdds(x, between);
    SeparatorsLowered(between);
    hide Normalize, Decide, Strip, CollapseRuns, LowerAll, Word, Separators;
    CollapseWords(LowerAll(x), between, LowerAll(y));
    TwoWordsDecided(LowerAll(x), LowerAll(y));
    hide Alias;
  }

  lemma {:induction false} WithoutAdds(a: string, b: string)
    ensures WithoutUnderscores(a + b) == WithoutUnderscores(a) + WithoutUnderscores(b)
  {
    if a == "" {
      assert a + b == b;
    } else {
      assert (a + b)[1..] == a[1..] + b;
      WithoutAdds(a[1..], b);
    }
  }

  lemma {:induction false} WithoutKeepsWord(a: string)
    requires Word(a)
    ensures WithoutUnderscores(a) == a
  {
    if a == "" {
    } else {
      WithoutKeepsWord(a[1..]);
    }
  }

  /** Two words are looked up joined by an underscore, then written together; unknown both ways, they are invalid. */
  lemma TwoWordsDecided(a: string, b: string)
    requires Word(a) && Word(b)
    ensures Decide(a + "_" + b) ==
            if Alias(a + "_" + b).Some? then Method(Alias(a + "_" + b).value)
            else if Alias(a + b).Some? then Method(Alias(a + b).value)
            else Invalid
  {
    assert WithoutUnderscores("_") == "" by { assert "_"[1..] == ""; }
    WithoutAdds(a + "_", b);
    WithoutAdds(a, "_");
    WithoutKeepsWord(a);
    WithoutKeepsWord(b);
    hide Alias, WithoutUnderscores;
    assert a + "" + b == a + b;
  }

  lemma StripKeeps(s: string)
    requires s != "" ==> !IsSpace(s[0]) && !IsSpace(s[|s| - 1])
    ensures Strip(s) == s
  {
  }

  lemma OneWordLabel(text: string, lower: string)
    requires text != "" && LowerAll(text) == lower && Word(lower)
    ensures Canonical(text) == lower
  {
    assert forall i :: 0 <= i < |text| ==> lower[i] == Lower(text[i]) && !IsSpace(text[i]);
    StripKeeps(text);
    WordIsCollapsed(lower);
    CollapsedStays(lower);
  }

  lemma TwoWordLabel(text: string, a: string, b: string)
    requires Word(a) && Word(b) && b != "" && LowerAll(text) == a + " " + b
    requires text != "" && !IsSpace(text[0]) && !IsSpace(text[|text| - 1])
    ensures Canonical(text) == a + "_" + b
  {
    StripKeeps(text);
    CollapseWords(a, " ", b);
  }

  predicate LabelReadsBack(m: PaymentMethod) { Decide(Canonical(Label(m))) == Method(m) }

  lemma ReadsBack(m: PaymentMethod, canonical: string)
    requires Canonical(Label(m)) == canonical && canonical != "" && Alias(canonical) == Some(m)
    ensures LabelReadsBack(m)
  {
    hide Canonical, Alias, Label;
  }

  lemma LabelCash()
    ensures LabelReadsBack(Cash)
  {
    AliasCash();
    assert Word("cash");
    assert Label(Cash) == "Cash";
    hide Alias, ByName, Word, LowerAll, Canonical, LabelReadsBack, Label;
    assert LowerAll("Cash") == "cash";
    OneWordLabel("Cash", "cash");
    ReadsBack(Cash, "cash");
  }

  lemma LabelPos()
    ensures LabelReadsBack(Pos)
  {
    AliasPos();
    assert Word("pos");
    assert Label(Pos) == "POS";
    hide Alias, ByName, Word, LowerAll, Canonical, LabelReadsBack, Label;
    assert LowerAll("POS") == "pos";
    OneWordLabel("POS", "pos");
    ReadsBack(Pos, "pos");
  }

  lemma LabelCheque()
    ensures LabelReadsBack(Cheque)
  {
    AliasCheque();
    assert Word("cheque");
    assert Label(Cheque) == "Cheque";
    hide Alias, ByName, Word, LowerAll, Canonical, LabelReadsBack, Label;
    assert LowerAll("Cheque") == "cheque";
    OneWordLabel("Cheque", "cheque");
    ReadsBack(Cheque, "cheque");
  }

  lemma LabelOther()
    ensures LabelReadsBack(Other)
  {
    AliasOther();
    assert Word("other");
    assert Label(Other) == "Other";
    hide Alias, ByName, Word, LowerAll, Canonical, LabelReadsBack, Label;
    assert LowerAll("Other") == "other";
    OneWordLabel("Other", "other");
    ReadsBack(Other, "other");
  }

  lemma TransferLabelText()
    ensures Canonical("Bank Transfer") == "bank_transfer"
  {
    assert Word("bank") && Word("transfer");
    hide Word, LowerAll, Canonical;
    var text := "Bank Transfer";
    assert LowerAll(text) == "bank transfer";
    assert "bank transfer" == "bank" + " " + "transfer";
    assert "bank_transfer" == "bank" + "_" + "transfer";
    TwoWordLabel(text, "bank", "transfer");
  }

  lemma TransferLabelAlias()
    ensures Alias("bank_transfer") == Some(Transfer)
  {
  }

  lemma LabelTransfer()
    ensures LabelReadsBack(Transfer)
  {
    TransferLabelText();
    TransferLabelAlias();
    assert Label(Transfer) == "Bank Transfer";
    hide Alias, Canonical, LabelReadsBack, Label;
    ReadsBack(Transfer, "bank_transfer");
  }

  lemma CardLabelText()
    ensures Canonical("Credit Card") == "credit_card"
  {
    assert Word("credit") && Word("card");
    hide Word, LowerAll, Canonical;
    var text := "Credit Card";
    assert LowerAll(text) == "credit card";
    assert "credit card" == "credit" + " " + "card";
    assert "credit_card" == "credit" + "_" + "card";
    TwoWordLabel(text, "credit", "card");
  }

  lemma CardLabelAlias()
    ensures Alias("credit_card") == Some(Card)
  {
  }

  lemma LabelCard()
    ensures LabelReadsBack(Card)
  {
    CardLabelText();
    CardLabelAlias();
    assert Label(Card) == "Credit Card";
    hide Alias, Canonical, LabelReadsBack, Label;
    ReadsBack(Card, "credit_card");
  }

  lemma MobileMoneyLabelText()
    ensures Canonical("Mobile Money") == "mobile_money"
  {
    assert Word("mobile") && Word("money");
    hide Word, LowerAll, Canonical;
    var text := "Mobile Money";
    assert LowerAll(text) == "mobile money";
    assert "mobile money" == "mobile" + " " + "money";
    assert "mobile_money" == "mobile" + "_" + "money";
    TwoWordLabel(text, "mobile", "money");
  }

  lemma MobileMoneyLabelAlias()
    ensures Alias("mobile_money") == Some(MobileMoney)
  {
  }

  lemma LabelMobileMoney()
    ensures LabelReadsBack(MobileMoney)
  {
    MobileMoneyLabelText();
    MobileMoneyLabelAlias();
    assert Label(MobileMoney) == "Mobile Money";
    hide Alias, Canonical, LabelReadsBack, Label;
    ReadsBack(MobileMoney, "mobile_money");
  }

  lemma LabelDecides(m: PaymentMethod)
    ensures LabelReadsBack(m)
  {
    match m {
      case Transfer => LabelTransfer();
      case Cash => LabelCash();
      case Pos => LabelPos();
      case Cheque => LabelCheque();
      case Card => LabelCard();
      case MobileMoney => LabelMobileMoney();
      case Other => LabelOther();
    }
  }

  /** Whatever is displayed can be typed back, in any case and with any separators. */
  lemma LabelsNormalizeBack(m: PaymentMethod, spelling: string)
    requires Canonical(spelling) == Canonical(Label(m))
    ensures Normalize(spelling) == Method(m)
  {
    NormalizeIsDecide(spelling);
    LabelDecides(m);
  }
}
