/** The additive constants: the first 32 bits of the absolute values of the sine, section 3.4 of
    RFC 1321. The sine is computed in whole multiples of 2^-96, rounding down: sine and cosine
    of 1 from their series, and those of the next integer by the addition theorems. */
module Md5Sines {
  import opened Bits
  import opened Md5Rounds

  const ONE: int := 0x1_0000_0000_0000_0000_0000_0000

  /** 1 - 1 / (k * (k + 1)) * (1 - 1 / ((k + 2) * (k + 3)) * (1 - ...)). */
  function Series(k: nat, top: nat): int
    requires k > 0
    decreases top - k
  {
    if k >= top then ONE else ONE - Series(k + 2, top) / (k * (k + 1))
  }

  /** The sine and the cosine of 1, from 15 terms of their series. */
  function SineOfOne(): int { Series(2, 32) }

  function CosineOfOne(): int { Series(1, 31) }

  const SINE: int := 66668199935398081914718513418
  const COSINE: int := 42807158896152731596418870679

  datatype Angle = Angle(sine: int, cosine: int)

  /** The addition theorems for n and 1. */
  function Turn(n: nat): Angle {
    if n == 0 then Angle(0, ONE)
    else
      var a := Turn(n - 1);
      Angle((a.sine * CosineOfOne() + a.cosine * SineOfOne()) / ONE,
            (a.cosine * CosineOfOne() - a.sine * SineOfOne()) / ONE)
  }

  /** The first 32 bits of the absolute value. */
  function Leading(sine: int): int {
    (if sine < 0 then -sine else sine) / 0x1_0000_0000_0000_0000
  }

  /** Constant i is floor(2^32 * |sin(i + 1)|). */
  predicate IsSine(i: nat)
    requires i < 64
  {
    Table(i).t == Leading(Turn(i + 1).sine)
  }

  lemma SineValue()
    ensures SineOfOne() == SINE
  {
    assert Series(32, 32) == 79228162514264337593543950336;
    assert Series(30, 32) == 79142970941668354434841214906;
    assert Series(28, 32) == 79130695801281987403353259185;
    assert Series(26, 32) == 79115440725373622511772791848;
    assert Series(24, 32) == 79096303446388714889357662350;
    assert Series(22, 32) == 79071845709034320370442452980;
    assert Series(20, 32) == 79039896214957113021233373067;
    assert Series(18, 32) == 78997051706618264163657303047;
    assert Series(16, 32) == 78937732177107652798824622016;
    assert Series(14, 32) == 78852268551516205913549547375;
    assert Series(12, 32) == 78722699254318720888969914776;
    assert Series(10, 32) == 78512501611952349221826042020;
    assert Series(8, 32) == 78137711102987221632129699753;
    assert Series(6, 32) == 77367740821336070411826576533;
    assert Series(4, 32) == 75359775473197534072952621510;
    assert Series(2, 32) == 66668199935398081914718513418;
  }

  lemma CosineValue()
    ensures CosineOfOne() == COSINE
  {
    assert Series(31, 31) == 79228162514264337593543950336;
    assert Series(29, 31) == 79137095660799665941137577980;
    assert Series(27, 31) == 79123483816300316871399588461;
    assert Series(25, 31) == 79106434077623875567587950970;
    assert Series(23, 31) == 79084853756877337818964986657;
    assert Series(21, 31) == 79056983177128239459736666816;
    assert Series(19, 31) == 79020117821692947489702538055;
    assert Series(17, 31) == 78969926835108478288022046617;
    assert Series(15, 31) == 78899121152451385600677191809;
    assert Series(13, 31) == 78794650859580538771562207524;
    assert Series(11, 31) == 78631233341085697148304842704;
    assert Series(9, 31) == 78354482143807829847451674306;
    assert Series(7, 31) == 77828975333124912060553741867;
    assert Series(5, 31) == 76633863336493507191525492274;
    assert Series(3, 31) == 72842007236223211994250159314;
    assert Series(1, 31) == 42807158896152731596418870679;
  }

  lemma NextTurn(n: nat, a: Angle, b: Angle)
    requires Turn(n) == a
    requires ONE * b.sine <= a.sine * COSINE + a.cosine * SINE < ONE * (b.sine + 1)
    requires ONE * b.cosine <= a.cosine * COSINE - a.sine * SINE < ONE * (b.cosine + 1)
    ensures Turn(n + 1) == b
  {
    SineValue();
    CosineValue();
    hide Series, SineOfOne, CosineOfOne;
  }

  lemma Turns0()
    requires Turn(0) == Angle(0, 79228162514264337593543950336)
    ensures Turn(4) == Angle(-59960071089457313322801048275, -51786983020194428383833153901)
    ensures IsSine(0) && IsSine(1) && IsSine(2) && IsSine(3)
  {
    hide Turn, Series, SineOfOne, CosineOfOne;
    var a0 := Angle(0, 79228162514264337593543950336);
    var a1 := Angle(66668199935398081914718513418, 42807158896152731596418870679);
    NextTurn(0, a0, a1);
    var a2 := Angle(72041964306347494005293714495, -32970549195753994912675015472);
    NextTurn(1, a1, a2);
    var a3 := Angle(11180678932581453437190989892, -78435286408562377447683141600);
    NextTurn(2, a2, a3);
    var a4 := Angle(-59960071089457313322801048275, -51786983020194428383833153901);
    NextTurn(3, a3, a4);
  }

  lemma Turns4()
    requires Turn(4) == Angle(-59960071089457313322801048275, -51786983020194428383833153901)
    ensures Turn(8) == Angle(78385035948304907822513542018, -11527700324419787929352640367)
    ensures IsSine(4) && IsSine(5) && IsSine(6) && IsSine(7)
  {
    hide Turn, Series, SineOfOne, CosineOfOne;
    var a0 := Angle(-59960071089457313322801048275, -51786983020194428383833153901);
    var a1 := Angle(-75973808271884186953907303084, 22474033729031881431400798777);
    NextTurn(4, a0, a1);
    var a2 := Angle(-22137576500308633371745997074, 76072527512102972876339965954);
    NextTurn(5, a1, a2);
    var a3 := Angle(52051841012985992495759630482, 59730290326981586926141228456);
    NextTurn(6, a2, a3);
    var a4 := Angle(78385035948304907822513542018, -11527700324419787929352640367);
    NextTurn(7, a3, a4);
  }

  lemma Turns8()
    requires Turn(8) == Angle(78385035948304907822513542018, -11527700324419787929352640367)
    ensures Turn(12) == Angle(-42511686348091494251698344951, 66856998580763196244499348643)
    ensures IsSine(8) && IsSine(9) && IsSine(10) && IsSine(11)
  {
    hide Turn, Series, SineOfOne, CosineOfOne;
    var a0 := Angle(78385035948304907822513542018, -11527700324419787929352640367);
    var a1 := Angle(32651390323866338496120924197, -72187176460263414341671005836);
    NextTurn(8, a0, a1);
    var a2 := Angle(-43101792984733611882766805990, -66478095466761449366966411448);
    NextTurn(9, a1, a2);
    var a3 := Angle(-79227386597271895881070133893, 350639919436340361711980660);
    NextTurn(10, a2, a3);
    var a4 := Angle(-42511686348091494251698344951, 66856998580763196244499348643);
    NextTurn(11, a3, a4);
  }

  lemma Turns12()
    requires Turn(12) == Angle(-42511686348091494251698344951, 66856998580763196244499348643)
    ensures Turn(16) == Angle(-22810050761135501351504781497, -75873600940387049085419385899)
    ensures IsSine(12) && IsSine(13) && IsSine(14) && IsSine(15)
  {
    hide Turn, Series, SineOfOne, CosineOfOne;
    var a0 := Angle(-42511686348091494251698344951, 66856998580763196244499348643);
    var a1 := Angle(33289062276837995745957592788, 71895341073782258526785864679);
    NextTurn(12, a0, a1);
    var a2 := Angle(78484000564818842913053142533, 10833438545918664620231825567);
    NextTurn(13, a1, a2);
    var a3 := Angle(51521110681018005862427020942, -60188677420100976297650968490);
    NextTurn(14, a2, a3);
    var a4 := Angle(-22810050761135501351504781497, -75873600940387049085419385899);
    NextTurn(15, a3, a4);
  }

  lemma Turns16()
    requires Turn(16) == Angle(-22810050761135501351504781497, -75873600940387049085419385899)
    ensures Turn(20) == Angle(72330974691274286301204992271, 32331591912507485243514786627)
    ensures IsSine(16) && IsSine(17) && IsSine(18) && IsSine(19)
  {
    hide Turn, Series, SineOfOne, CosineOfOne;
    var a0 := Angle(-22810050761135501351504781497, -75873600940387049085419385899);
    var a1 := Angle(-76169756727439659500870704485, -21800685665119377085507605332);
    NextTurn(16, a0, a1);
    var a2 := Angle(-59499339633366290361681512754, 52315679471646051821564731898);
    NextTurn(17, a1, a2);
    var a3 := Angle(11874495924360856527733177552, 78333250168297103356494920026);
    NextTurn(18, a2, a3);
    var a4 := Angle(72330974691274286301204992271, 32331591912507485243514786627);
    NextTurn(19, a3, a4);
  }

  lemma Turns20()
    requires Turn(20) == Angle(72330974691274286301204992271, 32331591912507485243514786627)
    ensures Turn(24) == Angle(-71747309634462095551864507856, 33606923328434921232298543133)
    ensures IsSine(20) && IsSine(21) && IsSine(22) && IsSine(23)
  {
    hide Turn, Series, SineOfOne, CosineOfOne;
    var a0 := Angle(72330974691274286301204992271, 32331591912507485243514786627);
    var a1 := Angle(66286688898410247879443099419, -43395582842866120010752557445);
    NextTurn(20, a0, a1);
    var a2 := Angle(-701272970924136036016705789, -79225058861492378191256703087);
    NextTurn(21, a1, a2);
    var a3 := Angle(-67044487704876871077827867118, -42215381127940735764760021053);
    NextTurn(22, a2, a3);
    var a4 := Angle(-71747309634462095551864507856, 33606923328434921232298543133);
    NextTurn(23, a3, a4);
  }

  lemma Turns24()
    requires Turn(24) == Angle(-71747309634462095551864507856, 33606923328434921232298543133)
    ensures Turn(28) == Angle(21463367822110738364662333533, -76265494013475465742506566079)
    ensures IsSine(24) && IsSine(25) && IsSine(26) && IsSine(27)
  {
    hide Turn, Series, SineOfOne, CosineOfOne;
    var a0 := Angle(-71747309634462095551864507856, 33606923328434921232298543133);
    var a1 := Angle(-10485985965793662466456254161, 78531177462915065575493580453);
    NextTurn(24, a0, a1);
    var a2 := Angle(60416104841223559795799314340, 51254229203071271086667896717);
    NextTurn(25, a1, a2);
    var a3 := Angle(75771907480362399589058010359, -23145621015087959768766290550);
    NextTurn(26, a2, a3);
    var a4 := Angle(21463367822110738364662333533, -76265494013475465742506566079);
    NextTurn(27, a3, a4);
  }

  lemma Turns28()
    requires Turn(28) == Angle(21463367822110738364662333533, -76265494013475465742506566079)
    ensures Turn(32) == Angle(43688522716118097061847436130, 66093983979405521797696548323)
    ensures IsSine(28) && IsSine(29) && IsSine(30) && IsSine(31)
  {
    hide Turn, Series, SineOfOne, CosineOfOne;
    var a0 := Angle(21463367822110738364662333533, -76265494013475465742506566079);
    var a1 := Angle(-52578493228397471630580886400, -59267223532219239475086204611);
    NextTurn(28, a0, a1);
    var a2 := Angle(-78279930082861785626348336524, 12221058939754410658236532279);
    NextTurn(29, a1, a2);
    var a3 := Angle(-32011160225536488670684276958, 72473356182818741208806903920);
    NextTurn(30, a2, a3);
    var a4 := Angle(43688522716118097061847436130, 66093983979405521797696548323);
    NextTurn(31, a3, a4);
  }

  lemma Turns32()
    requires Turn(32) == Angle(43688522716118097061847436130, 66093983979405521797696548323)
    ensures Turn(36) == Angle(-78576816178801926487944061895, -10138327997724899790333814765)
    ensures IsSine(32) && IsSine(33) && IsSine(34) && IsSine(35)
  {
    hide Turn, Series, SineOfOne, CosineOfOne;
    var a0 := Angle(43688522716118097061847436130, 66093983979405521797696548323);
    var a1 := Angle(79221179352518909189014399963, -1051892286649364147194243959);
    NextTurn(32, a0, a1);
    var a2 := Angle(41918249039400755830502245721, -67230663635408645093659374898);
    NextTurn(33, a1, a2);
    var a3 := Angle(-33924126124632587051074385471, -71597872887863795633110131375);
    NextTurn(34, a2, a3);
    var a4 := Angle(-78576816178801926487944061895, -10138327997724899790333814765);
    NextTurn(35, a3, a4);
  }

  lemma Turns36()
    requires Turn(36) == Angle(-78576816178801926487944061895, -10138327997724899790333814765)
    ensures Turn(40) == Angle(59033946569974969256110047397, -52840277135533849564804306862)
    ensures IsSine(36) && IsSine(37) && IsSine(38) && IsSine(39)
  {
    hide Turn, Series, SineOfOne, CosineOfOne;
    var a0 := Angle(-78576816178801926487944061895, -10138327997724899790333814765);
    var a1 := Angle(-50986343813734668972139973160, 60642348898227229002161581741);
    NextTurn(36, a0, a1);
    var a2 := Angle(23480737918108721660300429435, 75668729883669727547667292003);
    NextTurn(37, a1, a2);
    var a3 := Angle(76359737495013878440652195588, 21125629578293101857885376830);
    NextTurn(38, a2, a3);
    var a4 := Angle(59033946569974969256110047397, -52840277135533849564804306862);
    NextTurn(39, a3, a4);
  }

  lemma Turns40()
    requires Turn(40) == Angle(59033946569974969256110047397, -52840277135533849564804306862)
    ensures Turn(44) == Angle(1402490999067042808034227894, 79215748146339037728647336552)
    ensures IsSine(40) && IsSine(41) && IsSine(42) && IsSine(43)
  {
    hide Turn, Series, SineOfOne, CosineOfOne;
    var a0 := Angle(59033946569974969256110047397, -52840277135533849564804306862);
    var a1 := Angle(-12567382582505811693251286167, -78225076736374061028318461085);
    NextTurn(40, a0, a1);
    var a2 := Angle(-72614318146084942650921389621, -31690101539216307489982678395);
    NextTurn(41, a1, a2);
    var a3 := Angle(-65899984484238978056127758485, 43980606866705951778141187218);
    NextTurn(42, a2, a3);
    var a4 := Angle(1402490999067042808034227894, 79215748146339037728647336552);
    NextTurn(43, a3, a4);
  }

  lemma Turns44()
    requires Turn(44) == Angle(1402490999067042808034227894, 79215748146339037728647336552)
    ensures Turn(48) == Angle(-60867405159692582097523940363, -50717459760052155024202927231)
    ensures IsSine(44) && IsSine(45) && IsSine(46) && IsSine(47)
  {
    hide Turn, Series, SineOfOne, CosineOfOne;
    var a0 := Angle(1402490999067042808034227894, 79215748146339037728647336552);
    var a1 := Angle(67415522725749446492731729765, 41620295902367641433332133959);
    NextTurn(44, a0, a1);
    var a2 := Angle(71447033760989760472097098906, -34240664452411990635312016727);
    NextTurn(45, a1, a2);
    var a3 := Angle(9790471451253742233013826927, -78620915818558525655801610742);
    NextTurn(46, a2, a3);
    var a4 := Angle(-60867405159692582097523940363, -50717459760052155024202927231);
    NextTurn(47, a3, a4);
  }

  lemma Turns48()
    requires Turn(48) == Angle(-60867405159692582097523940363, -50717459760052155024202927231)
    ensures Turn(52) == Angle(78168691203240864708871445417, -12913460069208988672977740721)
    ensures IsSine(48) && IsSine(49) && IsSine(50) && IsSine(51)
  {
    hide Turn, Series, SineOfOne, CosineOfOne;
    var a0 := Angle(-60867405159692582097523940363, -50717459760052155024202927231);
    var a1 := Angle(-75564070171238156458929324384, 23815394906296990729443161957);
    NextTurn(48, a0, a1);
    var a2 := Angle(-20787477548911200228142836484, 76452485326117381643055220151);
    NextTurn(49, a1, a2);
    var a3 := Angle(53101026065520343242184956040, 58799513315805683286401276433);
    NextTurn(50, a2, a3);
    var a4 := Angle(78168691203240864708871445417, -12913460069208988672977740721);
    NextTurn(51, a3, a4);
  }

  lemma Turns52()
    requires Turn(52) == Angle(78168691203240864708871445417, -12913460069208988672977740721)
    ensures Turn(56) == Angle(-41321527552819273132687508042, 67599061355083018759663300446)
    ensures IsSine(52) && IsSine(53) && IsSine(54) && IsSine(55)
  {
    hide Turn, Series, SineOfOne, CosineOfOne;
    var a0 := Angle(78168691203240864708871445417, -12913460069208988672977740721);
    var a1 := Angle(31368422142090873084173043034, -72753857820065210650161546905);
    NextTurn(52, a0, a1);
    var a2 := Angle(-44271829573607045947693030873, -65704694212759055591686591764);
    NextTurn(53, a1, a2);
    var a3 := Angle(-79208765349333248493439248446, 1753062241035745026979535167);
    NextTurn(54, a2, a3);
    var a4 := Angle(-41321527552819273132687508042, 67599061355083018759663300446);
    NextTurn(55, a3, a4);
  }

  lemma Turns56()
    requires Turn(56) == Angle(-41321527552819273132687508042, 67599061355083018759663300446)
    ensures Turn(60) == Angle(-24149585424760275865023450740, -75457930393026860501558416015)
    ensures IsSine(56) && IsSine(57) && IsSine(58) && IsSine(59)
  {
    hide Turn, Series, SineOfOne, CosineOfOne;
    var a0 := Angle(-41321527552819273132687508042, 67599061355083018759663300446);
    var a1 := Angle(34556532111769004944848906764, 71294795208310672020169802829);
    NextTurn(56, a0, a1);
    var a2 := Angle(78663475518409691174939102588, 9442423139811090466131153823);
    NextTurn(57, a1, a2);
    var a3 := Angle(50447582308628422020121973141, -61091269217465448020990099922);
    NextTurn(58, a2, a3);
    var a4 := Angle(-24149585424760275865023450740, -75457930393026860501558416015);
    NextTurn(59, a3, a4);
  }

  lemma Turns60()
    requires Turn(60) == Angle(-24149585424760275865023450740, -75457930393026860501558416015)
    ensures Turn(64) == Angle(72891972471610101242751370429, 31046128334861916434146031964)
    ensures IsSine(60) && IsSine(61) && IsSine(62) && IsSine(63)
  {
    hide Turn, Series, SineOfOne, CosineOfOne;
    var a0 := Angle(-24149585424760275865023450740, -75457930393026860501558416015);
    var a1 := Angle(-76543735690143612796740378836, -20448918357314542024944604738);
    NextTurn(60, a0, a1);
    var a2 := Angle(-58563928361531757826895718425, 53360734911094102761616798449);
    NextTurn(61, a1, a2);
    var a3 := Angle(13259284621279304192255530152, 78110774587879916265008501310);
    NextTurn(62, a2, a3);
    var a4 := Angle(72891972471610101242751370429, 31046128334861916434146031964);
    NextTurn(63, a3, a4);
  }

  /** Every additive constant is the leading part of its sine. */
  lemma TableSines(i: nat)
    requires i < 64
    ensures Table(i).t == Leading(Turn(i + 1).sine)
  {
    assert Turn(0) == Angle(0, ONE);
    hide Turn, IsSine;
    Turns0();
    Turns4();
    Turns8();
    Turns12();
    Turns16();
    Turns20();
    Turns24();
    Turns28();
    Turns32();
    Turns36();
    Turns40();
    Turns44();
    Turns48();
    Turns52();
    Turns56();
    Turns60();
    AllSines(i);
  }

  lemma AllSines(i: nat)
    requires i < 64
    requires IsSine(0) && IsSine(1) && IsSine(2) && IsSine(3)
    requires IsSine(4) && IsSine(5) && IsSine(6) && IsSine(7)
    requires IsSine(8) && IsSine(9) && IsSine(10) && IsSine(11)
    requires IsSine(12) && IsSine(13) && IsSine(14) && IsSine(15)
    requires IsSine(16) && IsSine(17) && IsSine(18) && IsSine(19)
    requires IsSine(20) && IsSine(21) && IsSine(22) && IsSine(23)
    requires IsSine(24) && IsSine(25) && IsSine(26) && IsSine(27)
    requires IsSine(28) && IsSine(29) && IsSine(30) && IsSine(31)
    requires IsSine(32) && IsSine(33) && IsSine(34) && IsSine(35)
    requires IsSine(36) && IsSine(37) && IsSine(38) && IsSine(39)
    requires IsSine(40) && IsSine(41) && IsSine(42) && IsSine(43)
    requires IsSine(44) && IsSine(45) && IsSine(46) && IsSine(47)
    requires IsSine(48) && IsSine(49) && IsSine(50) && IsSine(51)
    requires IsSine(52) && IsSine(53) && IsSine(54) && IsSine(55)
    requires IsSine(56) && IsSine(57) && IsSine(58) && IsSine(59)
    requires IsSine(60) && IsSine(61) && IsSine(62) && IsSine(63)
    ensures IsSine(i)
  {
    hide IsSine;
  }
}
