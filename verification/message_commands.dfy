/** The text commands of the message handler that change or shape state:
    `!register`, `!addcoin` (with its mention and amount parsing) and the
    arrangement of shop buttons into rows of at most five when the shop is
    posted. Arguments arrive already split at whitespace. */
module MessageCommands {
  import opened Common
  import opened Config
  import opened Database

  // ---------------------------------------------------------------------
  // Button rows
  // ---------------------------------------------------------------------

  /** Most buttons a Discord action row holds. */
  const MaxRowLength: nat := 5

  /** Shop posting: the buttons of an item, in order, cut into action rows
      of five, with the leftovers in a last, shorter row. */
  method ChunkIntoRows(buttons: seq<ShopButton>) returns (rows: seq<seq<ShopButton>>)
    ensures Flatten(rows) == buttons
    ensures forall r :: 0 <= r < |rows| ==> 0 < |rows[r]| <= MaxRowLength
    ensures forall r :: 0 <= r < |rows| - 1 ==> |rows[r]| == MaxRowLength
    ensures |rows| == (|buttons| + MaxRowLength - 1) / MaxRowLength
  {
    rows := [];
    var current: seq<ShopButton> := [];
    var i := 0;
    while i < |buttons|
      invariant 0 <= i <= |buttons|
      invariant Flatten(rows) + current == buttons[..i]
      invariant |current| < MaxRowLength
      invariant forall r :: 0 <= r < |rows| ==> |rows[r]| == MaxRowLength
      invariant |Flatten(rows)| == MaxRowLength * |rows|
    {
      current := current + [buttons[i]];
      i := i + 1;
      if |current| == MaxRowLength {
        FlattenAppend(rows, [current]);
        assert Flatten([current]) == current + Flatten([current][1..]);
        rows := rows + [current];
        current := [];
      }
    }
    assert buttons[..i] == buttons;
    if |current| > 0 {
      FlattenAppend(rows, [current]);
      assert Flatten([current]) == current + Flatten([current][1..]);
      rows := rows + [current];
    }
  }

  // ---------------------------------------------------------------------
  // `!addcoin <@user> <amount>`
  // ---------------------------------------------------------------------

  /** `s` with every leading `c` removed (`trim_start_matches`). */
  function TrimStartMatches(s: string, c: char): (r: string)
    ensures |r| <= |s| && r == s[|s| - |r|..]
    ensures forall i :: 0 <= i < |s| - |r| ==> s[i] == c
    ensures |r| == 0 || r[0] != c
    decreases |s|
  {
    if |s| > 0 && s[0] == c then TrimStartMatches(s[1..], c) else s
  }

  /** The user id inside a mention `<@id>` or `<@!id>`: strip the `<@`
      prefix and the `>` suffix, then every leading `!`. */
  function ParseMention(mention: string): (id: Option<string>)
    ensures id.Some? <==> |mention| >= 3 && StartsWith(mention, "<@") && mention[|mention| - 1] == '>'
    ensures id.Some? ==> |id.value| == 0 || id.value[0] != '!'
  {
    if |mention| >= 3 && StartsWith(mention, "<@") && mention[|mention| - 1] == '>' then
      Some(TrimStartMatches(mention[2..|mention| - 1], '!'))
    else None
  }

  /** A mention built from an id that does not start with `!`, in either
      of its two forms, parses back to that id. */
  lemma MentionRoundTrip(id: string)
    requires |id| == 0 || id[0] != '!'
    ensures ParseMention("<@" + id + ">") == Some(id)
    ensures ParseMention("<@!" + id + ">") == Some(id)
  {
    var m1 := "<@" + id + ">";
    assert m1[2..|m1| - 1] == id;
    var m2 := "<@!" + id + ">";
    assert m2[2..|m2| - 1] == "!" + id;
    assert ("!" + id)[1..] == id;
  }

  /** `n` exclamation marks. */
  function Bangs(n: nat): (s: string)
    ensures |s| == n && forall i :: 0 <= i < n ==> s[i] == '!'
  {
    seq(n, _ => '!')
  }

  /** A string is its run of leading `!`s followed by what trimming them leaves. */
  lemma BangsThenRest(s: string)
    ensures s == Bangs(|s| - |TrimStartMatches(s, '!')|) + TrimStartMatches(s, '!')
  {
    var r := TrimStartMatches(s, '!');
    var k := |s| - |r|;
    var b := Bangs(k);
    assert s[..k] == b by {
      forall i | 0 <= i < k
        ensures s[..k][i] == b[i]
      {
      }
    }
    assert r == s[k..];
    assert s == s[..k] + s[k..];
  }

  /** A mention accepted by the parser is `<@`, its inside, then `>`. */
  lemma MentionFrame(mention: string)
    requires |mention| >= 3 && StartsWith(mention, "<@") && mention[|mention| - 1] == '>'
    ensures mention == "<@" + mention[2..|mention| - 1] + ">"
  {
    assert mention[..2] == "<@";
    assert mention[|mention| - 1..] == ">";
    assert mention == mention[..2] + mention[2..|mention| - 1] + mention[|mention| - 1..];
  }

  /** Wrapping is associative over a split inside. */
  lemma WrapSplit(inner: string, b: string, id: string)
    requires inner == b + id
    ensures "<@" + inner + ">" == "<@" + b + id + ">"
  {
  }

  /** A parsed mention is the id wrapped in `<@`, the `!`s that make up the
      rest of its length, and `>`. */
  lemma {:induction false} MentionShape(mention: string, id: string)
    requires ParseMention(mention) == Some(id)
    ensures mention == "<@" + Bangs(|mention| - 3 - |id|) + id + ">"
  {
    var inner := mention[2..|mention| - 1];
    MentionFrame(mention);
    BangsThenRest(inner);
    WrapSplit(inner, Bangs(|inner| - |id|), id);
  }

  const I32Min: int := -0x8000_0000
  const I32Max: int := 0x7FFF_FFFF

  predicate IsDigit(c: char)
  {
    '0' <= c <= '9'
  }

  predicate AllDigits(s: string)
  {
    forall i :: 0 <= i < |s| ==> IsDigit(s[i])
  }

  /** The value of a string of decimal digits. */
  function DigitsValue(s: string): nat
    requires AllDigits(s)
  {
    if |s| == 0 then 0 else DigitsValue(s[..|s| - 1]) * 10 + (s[|s| - 1] as int - '0' as int)
  }

  /** `s` is the digits `d`, at least one, with an optional sign in front. */
  predicate SignedNumeral(s: string, d: string)
  {
    |d| > 0 && AllDigits(d) && (s == d || s == "+" + d || s == "-" + d)
  }

  /** The value `s` denotes when it is the signed numeral of `d`. */
  function SignedValue(s: string, d: string): int
    requires AllDigits(d)
  {
    if |s| > 0 && s[0] == '-' then -(DigitsValue(d) as int) else DigitsValue(d)
  }

  /** `str::parse::<i32>`: an optional `+` or `-`, then one or more
      decimal digits, and a value that fits in 32 bits. A result is always
      the value of such a numeral, and every such numeral in range parses. */
  function ParseI32(s: string): (r: Option<int>)
    ensures r.Some? ==> I32Min <= r.value <= I32Max
    ensures |s| == 0 ==> r == None
  {
    if |s| == 0 then None
    else
      var negative := s[0] == '-';
      var digits := if s[0] == '-' || s[0] == '+' then s[1..] else s;
      if |digits| == 0 || !AllDigits(digits) then None
      else
        var n: int := DigitsValue(digits);
        var v := if negative then -n else n;
        if I32Min <= v <= I32Max then Some(v) else None
  }

  /** `ParseI32` accepts exactly the signed numerals whose value fits in an
      `i32`, and returns that value. */
  lemma ParseI32Spec(s: string)
    ensures ParseI32(s).Some? ==> exists d :: SignedNumeral(s, d) && ParseI32(s).value == SignedValue(s, d)
    ensures forall d :: SignedNumeral(s, d) && I32Min <= SignedValue(s, d) <= I32Max ==> ParseI32(s) == Some(SignedValue(s, d))
  {
    if |s| > 0 {
      var digits := if s[0] == '-' || s[0] == '+' then s[1..] else s;
      SignedNumeralDigits(s, digits);
      if |digits| > 0 && AllDigits(digits) {
        assert SignedNumeral(s, digits);
      }
    }
  }

  /** The only digits a string can be the signed numeral of are the ones
      after its sign, if it has one. */
  lemma SignedNumeralDigits(s: string, digits: string)
    requires |s| > 0
    requires digits == if s[0] == '-' || s[0] == '+' then s[1..] else s
    ensures forall d :: SignedNumeral(s, d) ==> d == digits
    ensures |digits| > 0 && AllDigits(digits) ==> SignedNumeral(s, digits)
  {
    forall d | SignedNumeral(s, d)
      ensures d == digits
    {
      assert d[0] == d[0];
      if s == d {
        assert IsDigit(s[0]);
      } else {
        assert s[1..] == d;
      }
    }
    if |digits| > 0 && AllDigits(digits) {
      if s[0] == '-' {
        assert s == "-" + digits;
      } else if s[0] == '+' {
        assert s == "+" + digits;
      }
    }
  }

  /** Decimal rendering of a natural number, most significant digit first. */
  function ShowNat(n: nat): (s: string)
    ensures |s| > 0 && AllDigits(s)
  {
    if n < 10 then ['0' + n as char] else ShowNat(n / 10) + ['0' + (n % 10) as char]
  }

  /** Decimal rendering of an integer, with a `-` when negative. */
  function ShowInt(n: int): (s: string)
  {
    if n < 0 then "-" + ShowNat(-n) else ShowNat(n)
  }

  lemma {:induction false} DigitsOfShowNat(n: nat)
    ensures DigitsValue(ShowNat(n)) == n
  {
    if n >= 10 {
      DigitsOfShowNat(n / 10);
      var s := ShowNat(n);
      assert s[..|s| - 1] == ShowNat(n / 10);
    }
  }

  /** Unsigned and negative decimal numerals within range parse to their value. */
  lemma ParseNumeral(d: string)
    requires |d| > 0 && AllDigits(d) && '0' <= d[0] <= '9'
    ensures DigitsValue(d) <= I32Max ==> ParseI32(d) == Some(DigitsValue(d))
    ensures -(DigitsValue(d) as int) >= I32Min ==> ParseI32("-" + d) == Some(-(DigitsValue(d) as int))
  {
    assert SignedNumeral(d, d) && SignedValue(d, d) == DigitsValue(d);
    assert ("-" + d)[0] == '-';
    assert SignedNumeral("-" + d, d) && SignedValue("-" + d, d) == -(DigitsValue(d) as int);
  }

  /** Every 32-bit integer, written in decimal, parses back to itself. */
  lemma ParseShowRoundTrip(n: int)
    requires I32Min <= n <= I32Max
    ensures ParseI32(ShowInt(n)) == Some(n)
  {
    var m: nat := if n < 0 then -n else n;
    DigitsOfShowNat(m);
    ParseNumeral(ShowNat(m));
  }

  /** Outcome of `!addcoin` as reported back. */
  datatype AddCoinOutcome =
    | NotAuthorized
    | AddCoinUsage
    | BadAmount
    | UserNotRegistered
    | Added(userId: string, amount: int, total: int)

  /** `!addcoin`: an authorised caller adds `amount` (possibly negative) to
      a registered player's balance. Only that balance can change. */
  function AddCoin(l: Ledger, callerId: string, args: seq<string>): (res: (Ledger, AddCoinOutcome))
    ensures !res.1.Added? ==> res.0 == l
  {
    if !IsAuthorized(l, callerId) then (l, NotAuthorized)
    else if |args| < 3 then (l, AddCoinUsage)
    else match ParseMention(args[1])
      case None => (l, AddCoinUsage)
      case Some(userId) =>
        match ParseI32(args[2])
        case None => (l, BadAmount)
        case Some(amount) =>
          match GetPlayerByDiscordId(l, userId)
          case None => (l, UserNotRegistered)
          case Some(p) =>
            var total := p.coin + amount;
            (UpdateCoin(l, userId, total), Added(userId, amount, total))
  }

  /** A successful `!addcoin` came from an authorised caller, moves the
      named player's balance by exactly the amount, reports the new total
      and leaves every other row, the log and the authorised set alone. */
  lemma AddCoinEffects(l: Ledger, callerId: string, args: seq<string>)
    requires AddCoin(l, callerId, args).1.Added?
    ensures var (l', o) := AddCoin(l, callerId, args);
      && IsAuthorized(l, callerId)
      && |args| >= 3
      && ParseMention(args[1]) == Some(o.userId)
      && ParseI32(args[2]) == Some(o.amount)
      && o.userId in l.players && l'.players.Keys == l.players.Keys
      && l'.players[o.userId].coin == l.players[o.userId].coin + o.amount == o.total
      && l'.players[o.userId].steamId == l.players[o.userId].steamId
      && (forall d :: d in l.players && d != o.userId ==> l'.players[d] == l.players[d])
      && l'.purchases == l.purchases && l'.authorized == l.authorized
  {
  }

  /** Once the mention and the amount parse, an authorised `!addcoin` on a
      registered player adds exactly the parsed amount. */
  lemma AddCoinParsed(l: Ledger, callerId: string, args: seq<string>, id: string, n: int)
    requires IsAuthorized(l, callerId) && id in l.players && |args| >= 3
    requires ParseMention(args[1]) == Some(id) && ParseI32(args[2]) == Some(n)
    ensures AddCoin(l, callerId, args).1 == Added(id, n, l.players[id].coin + n)
    ensures AddCoin(l, callerId, args).0.players[id].coin == l.players[id].coin + n
  {
  }

  /** For a registered player, `!addcoin <@id> n` with `n` written in
      decimal adds exactly `n`. */
  lemma AddCoinCredits(l: Ledger, callerId: string, args: seq<string>, id: string, n: int)
    requires IsAuthorized(l, callerId) && id in l.players
    requires |id| == 0 || id[0] != '!'
    requires I32Min <= n <= I32Max
    requires |args| >= 3 && args[1] == "<@" + id + ">" && args[2] == ShowInt(n)
    ensures AddCoin(l, callerId, args).1 == Added(id, n, l.players[id].coin + n)
    ensures AddCoin(l, callerId, args).0.players[id].coin == l.players[id].coin + n
  {
    MentionRoundTrip(id);
    ParseShowRoundTrip(n);
    AddCoinParsed(l, callerId, args, id, n);
  }

  // ---------------------------------------------------------------------
  // `!register <steam_id>`
  // ---------------------------------------------------------------------

  /** Reply to `!register`. */
  datatype RegisterOutcome = RegisterUsage | Registered(steamId: string) | RegisterRefused(steamId: string)

  /** `!register` as written: the upsert's result is ignored, so a
      registration the Steam id constraint refused is still reported as a
      success. */
  function RegisterAsWritten(l: Ledger, discordId: string, args: seq<string>): (res: (Ledger, RegisterOutcome))
    ensures |args| < 2 ==> res == (l, RegisterUsage)
    ensures |args| >= 2 ==> res.0 == AddOrUpdatePlayer(l, discordId, args[1], 0).0
    ensures |args| >= 2 ==> res.1 == Registered(args[1])
  {
    if |args| < 2 then (l, RegisterUsage)
    else (AddOrUpdatePlayer(l, discordId, args[1], 0).0, Registered(args[1]))
  }

  /** A Steam id already held by one player, claimed by another: the reply
      says "registered" while the ledger did not change. */
  lemma RegisterAsWrittenReportsRefusalAsSuccess()
    ensures var l := Ledger(map["alice" := Account("765", 10)], [], {});
      var (l', o) := RegisterAsWritten(l, "bob", ["!register", "765"]);
      o == Registered("765") && l' == l && "bob" !in l'.players
  {
    var l := Ledger(map["alice" := Account("765", 10)], [], {});
    assert "alice" in l.players && l.players["alice"].steamId == "765";
    assert SteamIdHeldByOther(l, "bob", "765");
  }

  /** `!register` reporting what the upsert did. */
  function Register(l: Ledger, discordId: string, args: seq<string>): (res: (Ledger, RegisterOutcome))
    ensures |args| < 2 ==> res == (l, RegisterUsage)
    ensures res.0 == RegisterAsWritten(l, discordId, args).0
  {
    if |args| < 2 then (l, RegisterUsage)
    else
      var (l', ok) := AddOrUpdatePlayer(l, discordId, args[1], 0);
      (l', if ok then Registered(args[1]) else RegisterRefused(args[1]))
  }

  /** The corrected reply is "registered" exactly when the player now has
      that Steam id and a zero balance (registering again resets the
      balance), and "refused" exactly when another player holds the id, in
      which case nothing changed. */
  lemma RegisterReportsOutcome(l: Ledger, discordId: string, args: seq<string>)
    requires |args| >= 2
    ensures var (l', o) := Register(l, discordId, args);
      && (o.Registered? <==> !SteamIdHeldByOther(l, discordId, args[1]))
      && (o.Registered? ==> discordId in l'.players && l'.players[discordId] == Account(args[1], 0))
      && (o.Registered? ==> forall d :: d in l.players && d != discordId ==> d in l'.players && l'.players[d] == l.players[d])
      && (o.RegisterRefused? ==> l' == l)
      && (o.Registered? || o.RegisterRefused?)
  {
  }
}
