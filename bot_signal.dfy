/** The decision rule of the 1-minute signal bot and the trade levels and
    labels it puts into its message. The indicator readings of a bar (RSI,
    Williams %R, MACD and its signal line) come from a charting library and
    are inputs here; the two bars given are the latest one and the one
    before it. */
module BotSignal {
  import opened Strings

  datatype Signal = Long | Short | NoSignal

  /** One row of the candle frame after the indicator columns are added. */
  datatype Bar = Bar(close: real, rsi: real, wr: real, macd: real, macdSignal: real)

  /** The MACD line crossed its signal line upwards between the two bars. */
  predicate CrossedUp(prev: Bar, latest: Bar)
  {
    prev.macd < prev.macdSignal && latest.macd > latest.macdSignal
  }

  /** The MACD line crossed its signal line downwards between the two bars. */
  predicate CrossedDown(prev: Bar, latest: Bar)
  {
    prev.macd > prev.macdSignal && latest.macd < latest.macdSignal
  }

  predicate InLongBands(b: Bar)
  {
    45.0 < b.rsi < 65.0 && -80.0 < b.wr < -20.0
  }

  predicate InShortBands(b: Bar)
  {
    35.0 < b.rsi < 55.0 && b.wr < -20.0
  }

  predicate LongSetup(prev: Bar, latest: Bar)
  {
    InLongBands(latest) && CrossedUp(prev, latest)
  }

  predicate ShortSetup(prev: Bar, latest: Bar)
  {
    InShortBands(latest) && CrossedDown(prev, latest)
  }

  /** The classification `analyze` makes: the LONG test first, the SHORT test
      only when it fails, otherwise no signal. Because the two crossing tests
      exclude each other, SHORT is exactly the short setup: the `elif` never
      has to break a tie. */
  function Analyze(prev: Bar, latest: Bar): (s: Signal)
    ensures s == Long <==> LongSetup(prev, latest)
    ensures s == Short <==> ShortSetup(prev, latest)
    ensures s == NoSignal <==> !LongSetup(prev, latest) && !ShortSetup(prev, latest)
    ensures s != NoSignal ==> latest.macd != latest.macdSignal && prev.macd != prev.macdSignal
  {
    if latest.rsi > 45.0 && latest.rsi < 65.0
      && latest.wr > -80.0 && latest.wr < -20.0
      && latest.macd > latest.macdSignal
      && prev.macd < prev.macdSignal
    then Long
    else if latest.rsi < 55.0 && latest.rsi > 35.0
      && latest.wr < -20.0
      && latest.macd < latest.macdSignal
      && prev.macd > prev.macdSignal
    then Short
    else NoSignal
  }

  /** A symmetric alternative to `Analyze`: a bar meeting both setups gives
      no signal, and the SHORT test is taken before the LONG one. */
  function AnalyzeNoneOnTie(prev: Bar, latest: Bar): Signal
  {
    if LongSetup(prev, latest) && ShortSetup(prev, latest) then NoSignal
    else if ShortSetup(prev, latest) then Short
    else if LongSetup(prev, latest) then Long
    else NoSignal
  }

  /** The precedence of LONG over SHORT never decides anything: the rule
      agrees with the none-on-tie rule on every input. */
  lemma TieBreakIrrelevant(prev: Bar, latest: Bar)
    ensures Analyze(prev, latest) == AnalyzeNoneOnTie(prev, latest)
    ensures !(LongSetup(prev, latest) && ShortSetup(prev, latest))
  {
  }

  /** The RSI and Williams %R bands of the two setups overlap, so it is the
      crossing direction alone that keeps LONG and SHORT apart. */
  lemma BandsOverlap()
    ensures InLongBands(Bar(1.0, 50.0, -50.0, 0.0, 0.0))
    ensures InShortBands(Bar(1.0, 50.0, -50.0, 0.0, 0.0))
  {
  }

  /** Without a strict MACD cross there is no signal: equal MACD and signal
      values on either bar rule both setups out. */
  lemma NoCrossNoSignal(prev: Bar, latest: Bar)
    requires latest.macd == latest.macdSignal || prev.macd == prev.macdSignal
    ensures Analyze(prev, latest) == NoSignal
  {
  }

  /** Entry, take-profit and stop-loss levels of a message, before rounding. */
  datatype Levels = Levels(entry: real, takeProfit: real, stopLoss: real)

  /** Fixed-percentage levels around the closing price: +2% / -1% for LONG,
      -2% / +1% for anything else. */
  function TradeLevels(signal: Signal, close: real): (l: Levels)
    ensures l.entry == close
    ensures close > 0.0 && signal == Long ==> l.stopLoss < l.entry < l.takeProfit
    ensures close > 0.0 && signal != Long ==> l.takeProfit < l.entry < l.stopLoss
    ensures close == 0.0 ==> l.takeProfit == 0.0 && l.stopLoss == 0.0
    // the target is always twice as far from the entry as the stop, on the other side
    ensures l.takeProfit - l.entry == 2.0 * (l.entry - l.stopLoss)
  {
    var entry := close;
    Levels(entry,
           entry * (if signal == Long then 1.02 else 0.98),
           entry * (if signal == Long then 0.99 else 1.01))
  }

  /** Levels scale with the price: the percentages do not depend on it. */
  lemma TradeLevelsScale(signal: Signal, close: real, k: real)
    ensures TradeLevels(signal, k * close)
         == Levels(k * TradeLevels(signal, close).entry,
                   k * TradeLevels(signal, close).takeProfit,
                   k * TradeLevels(signal, close).stopLoss)
  {
  }

  const Up: string := "вверх"
  const Down: string := "вниз"

  /** The MACD direction label: "up" exactly when MACD is above its signal
      line, "down" otherwise (equality included). */
  function DirectionLabel(b: Bar): (d: string)
    ensures d == Up || d == Down
    ensures d == Up <==> b.macd > b.macdSignal
  {
    if b.macd > b.macdSignal then Up else Down
  }

  /** A LONG row is always labelled "up" and a SHORT row "down". */
  lemma LabelAgreesWithSignal(prev: Bar, latest: Bar)
    ensures Analyze(prev, latest) == Long ==> DirectionLabel(latest) == Up
    ensures Analyze(prev, latest) == Short ==> DirectionLabel(latest) == Down
  {
  }

  /** How the signal is written in the message: Python's `str` of the value
      `analyze` returns. */
  function SignalName(s: Signal): (name: string)
    ensures name == "LONG" <==> s == Long
    ensures name == "SHORT" <==> s == Short
  {
    match s
    case Long => "LONG"
    case Short => "SHORT"
    case NoSignal => "None"
  }

  const Quote: string := "USDT"

  /** The coin shown in the message: the trading pair upper-cased with the
      quote asset "USDT" deleted. */
  function CoinName(symbol: string): (coin: string)
    ensures |coin| <= |symbol|
  {
    RemoveAll(Upper(symbol), Quote)
  }

  /** Deleting "USDT" from `x + "USDT" + y` deletes it from `x` and from `y`
      separately and drops the "USDT" between them: no occurrence can
      straddle either boundary, because no proper prefix of "USDT" is also a
      suffix of it. */
  lemma {:induction false} RemoveQuoteSplit(x: string, y: string)
    ensures RemoveAll(x + Quote + y, Quote) == RemoveAll(x, Quote) + RemoveAll(y, Quote)
  {
    var s := x + Quote + y;
    if x == [] {
      assert s[..4] == Quote && s[4..] == y;
    } else if StartsWith(x, Quote) {
      assert s[..4] == x[..4] && s[4..] == x[4..] + Quote + y;
      RemoveQuoteSplit(x[4..], y);
    } else {
      assert !StartsWith(s, Quote) by {
        if |x| >= 4 {
          assert s[..4] == x[..4];
        } else if |x| == 1 {
          assert s[1] == 'U';
        } else if |x| == 2 {
          assert s[2] == 'U';
        } else {
          assert s[3] == 'U';
        }
      }
      assert s[1..] == x[1..] + Quote + y;
      RemoveQuoteSplit(x[1..], y);
    }
  }

  /** The `y` = "" case of `RemoveQuoteSplit`: a trailing "USDT" is dropped. */
  lemma RemoveQuoteSuffix(x: string)
    ensures RemoveAll(x + Quote, Quote) == RemoveAll(x, Quote)
  {
    RemoveQuoteSplit(x, []);
    assert x + Quote + [] == x + Quote;
  }

  /** Wherever "usdt" stands in the symbol (front, middle or end), it is
      dropped and the text on either side keeps its own coin name. */
  lemma CoinNameSplit(x: string, y: string)
    ensures CoinName(x + "usdt" + y) == CoinName(x) + CoinName(y)
  {
    UpperConcat(x + "usdt", y);
    UpperConcat(x, "usdt");
    assert Upper("usdt") == Quote;
    RemoveQuoteSplit(Upper(x), Upper(y));
  }

  /** A "...usdt" pair loses exactly its quote suffix. */
  lemma CoinNameOfPair(base: string)
    ensures CoinName(base + "usdt") == CoinName(base)
  {
    CoinNameSplit(base, []);
    assert base + "usdt" + [] == base + "usdt";
    assert CoinName([]) == [];
  }

  /** When the base asset does not itself contain "USDT", the coin name is
      the upper-cased base asset. */
  lemma CoinNameOfPlainPair(base: string)
    requires !Contains(Upper(base), Quote)
    ensures CoinName(base + "usdt") == Upper(base)
  {
    CoinNameOfPair(base);
    RemoveAllAbsent(Upper(base), Quote);
  }

  lemma CoinNameExample()
    ensures CoinName("dogeusdt") == "DOGE"
  {
    assert "dogeusdt" == "doge" + "usdt";
    assert Upper("doge") == "DOGE";
    assert !Contains("DOGE", Quote) by {
      assert !Contains("", Quote);
      assert !Contains("E", Quote);
      assert !Contains("GE", Quote);
      assert !Contains("OGE", Quote);
    }
    CoinNameOfPlainPair("doge");
  }

  /** A quote asset written in front of the base is dropped as well. */
  lemma CoinNameLeadingQuote()
    ensures CoinName("usdtbtc") == "BTC"
  {
    assert "usdtbtc" == [] + "usdt" + "btc";
    CoinNameSplit([], "btc");
    assert CoinName([]) == [];
    assert Upper("btc") == "BTC";
    assert !Contains("BTC", Quote) by {
      assert !Contains("", Quote);
      assert !Contains("C", Quote);
      assert !Contains("TC", Quote);
    }
    RemoveAllAbsent("BTC", Quote);
  }

  /** The deletion is a single left-to-right pass, so a "USDT" can survive
      when deleting an inner one brings its halves together. */
  lemma CoinNameSinglePass()
    ensures CoinName("uusdtsdt") == "USDT"
  {
    var u := Upper("uusdtsdt");
    forall i | 0 <= i < 8 ensures u[i] == "UUSDTSDT"[i] {
    }
    assert u == "UUSDTSDT";
    RemoveSinglePass();
  }

  lemma RemoveSinglePass()
    ensures RemoveAll("UUSDTSDT", Quote) == "USDT"
  {
    var s: string := "UUSDTSDT";
    assert RemoveAll("SDT", Quote) == "SDT" by {
      assert !StartsWith("SDT", Quote) && "SDT"[1..] == "DT";
      assert !StartsWith("DT", Quote) && "DT"[1..] == "T";
      assert !StartsWith("T", Quote) && "T"[1..] == "";
      assert RemoveAll("T", Quote) == "T";
      assert RemoveAll("DT", Quote) == "DT";
    }
    assert RemoveAll(s[1..], Quote) == "SDT" by {
      assert s[1..] == "USDTSDT" && StartsWith(s[1..], Quote) && s[1..][4..] == "SDT";
    }
    assert s[..4] != Quote by {
      assert s[..4][1] != Quote[1];
    }
    assert RemoveAll(s, Quote) == [s[0]] + RemoveAll(s[1..], Quote);
  }

  /** The content of the alert message; its text layout and the rounding of
      the prices to six places and of RSI and WR to two are not modelled. */
  datatype Message = Message(
    coin: string,
    signal: string,
    entry: real,
    takeProfit: real,
    stopLoss: real,
    macdDirection: string,
    rsi: real,
    wr: real)

  function FormatMessage(symbol: string, signal: Signal, data: Bar): (m: Message)
    ensures m.entry == data.close
    ensures m.macdDirection == Up <==> data.macd > data.macdSignal
    ensures m.takeProfit - m.entry == 2.0 * (m.entry - m.stopLoss)
  {
    var levels := TradeLevels(signal, data.close);
    Message(CoinName(symbol), SignalName(signal), levels.entry, levels.takeProfit,
            levels.stopLoss, DirectionLabel(data), data.rsi, data.wr)
  }

  /** A message for a LONG decision at a positive price says "LONG", points
      up, and puts the target above and the stop below the entry; a SHORT one
      is the mirror image. */
  lemma MessageConsistent(symbol: string, prev: Bar, latest: Bar)
    requires latest.close > 0.0
    ensures var s := Analyze(prev, latest);
            var m := FormatMessage(symbol, s, latest);
            (s == Long ==> m.signal == "LONG" && m.macdDirection == Up && m.stopLoss < m.entry < m.takeProfit)
            && (s == Short ==> m.signal == "SHORT" && m.macdDirection == Down && m.takeProfit < m.entry < m.stopLoss)
  {
  }
}
