/** The entity table of Baselib/Markup.cpp. */
module Entities {
  import opened Escaping

  const TABLE_0: seq<string> :=
    [
      "60216oslash60217ugrave60248oslash60249ugrave", "50937omega60221yacute58968lceil50969omega60253yacute",
      "50916delta50206icirc50948delta50238icirc68472weierp", "40185sup1", "68970lfloor40178sup2",
      "50922kappa60164curren50954kappa58212mdash40179sup3", "59830diams58211ndash", "68855otimes58969rceil",
      "50338oelig50212ocirc50244ocirc50339oelig58482trade", "50197aring50931sigma50229aring50963sigma",
      "50180acute68971rfloor50732tilde", "68249lsaquo", "58734infin68201thinsp", "50161iexcl",
      "50920theta50219ucirc50952theta50251ucirc", "58254oline", "58260frasl68727lowast",
      "59827clubs60191iquest68250rsaquo", "58629crarr50181micro", "58222bdquo", "",
      "58243prime60177plusmn58242prime", "40914beta40946beta", "", "", "", "50171laquo50215times", "40710circ",
      "49001lang", "58220ldquo40175macr", "40182para50163pound48476real", "", "58713notin50187raquo",
      "48773cong50223szlig50978upsih", "58776asymp58801equiv49002rang58218sbquo",
      "50222thorn48659darr48595darr40402fnof58221rdquo50254thorn", "40162cent58722minus", "58707exist40170ordf",
      "", "40921iota58709empty48660harr48596harr40953iota", "", "40196auml40228auml48226bull40167sect48838sube",
      "", "48656larr48592larr58853oplus"
    ]

  const TABLE_1: seq<string> :=
    [
      "30176deg58216lsquo40186ordm", "40203euml" + ("40039apos" + "40235euml48712isin40160nbsp"),
      "40918zeta40950zeta", "38743and48195emsp48719prod", "30935chi38745cap30967chi48194ensp",
      "40207iuml40239iuml48706part48869perp48658rarr48594rarr", "38736ang48836nsub58217rsquo", "",
      "48901sdot48657uarr48593uarr", "40169copy48364euro", "30919eta30951eta", "40214ouml40246ouml48839supe",
      "", "", "30038amp" + "30174reg", "48733prop", "", "30208eth30934phi40220uuml30240eth30966phi40252uuml",
      "", "", "", "40376yuml40255yuml", "", "40034quot" + "48204zwnj", "38746cup68756there4",
      "30929rho30961rho38764sim", "30932tau38834sub30964tau", "38747int38206lrm38207rlm",
      "30936psi30968psi30165yen", "", "28805ge30168uml", "30982piv", "", "30172not", "", "28804le", "30173shy",
      "39674loz28800ne38721sum", "", "", "38835sup", "28715ni", "", "20928pi20960pi38205zwj"
    ]

  const TABLE_2: seq<string> :=
    [
      "", "60923lambda" + ("20062gt" + "60955lambda"), "", "", "60199ccedil60231ccedil", "", "20060lt",
      "20926xi28744or20958xi", "20924mu20956mu", "20925nu20957nu", "68225dagger68224dagger", "80977thetasym",
      "", "", "", "78501alefsym", "", "", "", "60193aacute60195atilde60225aacute60227atilde", "",
      "70927omicron60247divide70959omicron", "60192agrave60224agrave", "60201eacute60233eacute60962sigmaf",
      "70917epsilon70949epsilon", "", "60200egrave60232egrave", "60205iacute60237iacute", "", "",
      "60204igrave68230hellip60236igrave", "60166brvbar",
      "60209ntilde68704forall58711nabla60241ntilde69824spades",
      "60211oacute60213otilde60189frac1260183middot60243oacute60245otilde", "", "50184cedil60188frac14",
      "50198aelig50194acirc60210ograve50226acirc50230aelig60242ograve",
      "50915gamma60190frac3450947gamma58465image58730radic", "60352scaron60353scaron",
      "60218uacute69829hearts60250uacute", "50913alpha50202ecirc70933upsilon50945alpha50234ecirc70965upsilon",
      "68240permil"
    ]

  const PREDEF_ENTITY_TABLE: seq<string> := TABLE_0 + TABLE_1 + TABLE_2

  lemma Rows()
    ensures |TABLE_0| == 44 && |TABLE_1| == 44 && |TABLE_2| == 42
  {
  }

  lemma SlotLt()
    ensures |TABLE_2| == 42 && TABLE_2[6] == "20060lt"
  {
  }

  lemma SlotAmp()
    ensures |TABLE_1| == 44 && TABLE_1[14] == "30038amp" + "30174reg"
  {
  }

  lemma SlotGt()
    ensures |TABLE_2| == 42 && TABLE_2[1] == "60923lambda" + ("20062gt" + "60955lambda")
  {
  }

  lemma SlotQuot()
    ensures |TABLE_1| == 44 && TABLE_1[23] == "40034quot" + "48204zwnj"
  {
  }

  lemma SlotApos()
    ensures |TABLE_1| == 44 && TABLE_1[1] == "40203euml" + ("40039apos" + "40235euml48712isin40160nbsp")
  {
  }

  lemma AmpQuot()
    ensures FindEntry("30038amp" + "30174reg", "amp") == 38 && FindEntry("40034quot" + "48204zwnj", "quot") == 34
  {
    FirstEntry("30038amp", "30174reg", "0038", "amp");
    FirstEntry("40034quot", "48204zwnj", "0034", "quot");
  }

  /** An entry in front of others. */
  lemma FirstEntry(entry: string, rest: string, code: string, name: string)
    requires |entry| > 0 && entry[1..] == code + name && |code| == 4 && |name| <= 9 && Digit(entry[0]) == |name|
    requires forall i :: 0 <= i < 4 ==> 0 <= Digit(code[i]) <= 9
    ensures FindEntry(entry + rest, name) == 1000 * Digit(code[0]) + 100 * Digit(code[1]) + 10 * Digit(code[2]) + Digit(code[3])
  {
    hide Digit, FindEntry;
    assert (entry + rest)[1..] == entry[1..] + rest;
    EntryFound(entry + rest, name, code, rest);
  }

  lemma SkipEntry(entry: string, rest: string, name: string)
    requires |entry| > 5 && Digit(entry[0]) == |entry| - 5 <= 9 && entry[5..] != name
    ensures FindEntry(entry + rest, name) == FindEntry(rest, name)
  {
    hide Digit, FindEntry;
    assert (entry + rest)[5..|entry|] == entry[5..] && (entry + rest)[|entry|..] == rest;
    EntrySkipped(entry + rest, name, |entry| - 5, rest);
  }

  lemma GtAfterLambda()
    ensures FindEntry("60923lambda" + ("20062gt" + "60955lambda"), "gt") == 62
  {
    hide FindEntry;
    SkipEntry("60923lambda", "20062gt" + "60955lambda", "gt");
    FirstEntry("20062gt", "60955lambda", "0062", "gt");
  }

  lemma AposAfterEuml()
    ensures FindEntry("40203euml" + ("40039apos" + "40235euml48712isin40160nbsp"), "apos") == 39
  {
    hide FindEntry;
    assert "40203euml"[5..][0] == 'e';
    SkipEntry("40203euml", "40039apos" + "40235euml48712isin40160nbsp", "apos");
    FirstEntry("40039apos", "40235euml48712isin40160nbsp", "0039", "apos");
  }

  /** The entity table decodes the five names that escaping writes. */
  lemma PredefKnowsXml()
    ensures KnowsXml(PREDEF_ENTITY_TABLE)
  {
    hide FindEntry, Lookup, Hash;
    Rows();
    SlotLt(); SlotAmp(); SlotGt(); SlotQuot(); SlotApos();
    Hashes();
    LookupHit(PREDEF_ENTITY_TABLE, "lt", 94);
    LookupHit(PREDEF_ENTITY_TABLE, "amp", 58);
    LookupHit(PREDEF_ENTITY_TABLE, "gt", 89);
    LookupHit(PREDEF_ENTITY_TABLE, "quot", 67);
    LookupHit(PREDEF_ENTITY_TABLE, "apos", 45);
    LtEntry();
    AmpQuot();
    GtAfterLambda();
    AposAfterEuml();
  }

  /** No entry of the table is without a name, so `UnescapeNotLonger` holds for it. */
  lemma PredefNamed()
    ensures Lookup(PREDEF_ENTITY_TABLE, "") == 0
  {
    hide FindEntry;
    Rows();
    FirstSlot();
    NoNameless();
    LookupHit(PREDEF_ENTITY_TABLE, "", 0);
  }

  lemma FirstSlot()
    ensures |TABLE_0| == 44 && TABLE_0[0] == "60216oslash" + ("60217ugrave" + ("60248oslash" + "60249ugrave"))
  {
  }

  lemma NoNameless()
    ensures FindEntry("60216oslash" + ("60217ugrave" + ("60248oslash" + "60249ugrave")), "") == 0
  {
    hide FindEntry;
    SkipEntry("60216oslash", "60217ugrave" + ("60248oslash" + "60249ugrave"), "");
    SkipEntry("60217ugrave", "60248oslash" + "60249ugrave", "");
    SkipEntry("60248oslash", "60249ugrave", "");
    assert "60249ugrave" + "" == "60249ugrave";
    SkipEntry("60249ugrave", "", "");
    NoEntry();
  }

  lemma NoEntry()
    ensures FindEntry("", "") == 0
  {
  }
}
