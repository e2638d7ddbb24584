/** The `keys` strings of the key bindings (packages/ext-keybindings/src/policy.hpp): modifier
    names, combos, the parser. Resolving a key name to a keysym is a function parameter, 0 meaning
    that the name is unknown. */
module Combos {
  import opened Options

  const SHIFT: bv32 := 1
  const CTRL: bv32 := 4
  const ALT: bv32 := 8
  const LOGO: bv32 := 64
  const RELEVANT: bv32 := 77

  datatype Combo = Combo(modifiers: bv32, keysym: bv32, isTap: bool)

  // ---- modifier names ----

  function Lower(c: char): char {
    if 'A' <= c <= 'Z' then (c as int - 'A' as int + 'a' as int) as char else c
  }

  function Lowered(s: string): string {
    seq(|s|, i requires 0 <= i < |s| => Lower(s[i]))
  }

  function ModifierBit(tok: string): (bit: Option<bv32>) {
    var name := Lowered(tok);
    if name == "super" || name == "logo" then Some(LOGO)
    else if name == "alt" then Some(ALT)
    else if name == "ctrl" || name == "control" then Some(CTRL)
    else if name == "shift" then Some(SHIFT)
    else None
  }

  predicate IsModifier(tok: string) {
    ModifierBit(tok).Some?
  }

  method EqualsName(tok: string, name: string) returns (same: bool)
    ensures same == (Lowered(tok) == name)
  {
    if |tok| != |name| {
      return false;
    }
    for i := 0 to |tok|
      invariant Lowered(tok)[..i] == name[..i]
    {
      var c := tok[i];
      if 'A' <= c <= 'Z' {
        c := (c as int - 'A' as int + 'a' as int) as char;
      }
      if c != name[i] {
        assert Lowered(tok)[i] != name[i];
        return false;
      }
      assert Lowered(tok)[..i + 1] == Lowered(tok)[..i] + [c];
    }
    assert Lowered(tok) == Lowered(tok)[..|tok|];
    return true;
  }

  method LookUpModifier(tok: string) returns (bit: Option<bv32>)
    ensures bit == ModifierBit(tok)
  {
    var isSuper := EqualsName(tok, "super");
    var isLogo := EqualsName(tok, "logo");
    if isSuper || isLogo {
      return Some(LOGO);
    }
    var isAlt := EqualsName(tok, "alt");
    if isAlt {
      return Some(ALT);
    }
    var isCtrl := EqualsName(tok, "ctrl");
    var isControl := EqualsName(tok, "control");
    if isCtrl || isControl {
      return Some(CTRL);
    }
    var isShift := EqualsName(tok, "shift");
    if isShift {
      return Some(SHIFT);
    }
    return None;
  }

  /** Two characters are the same letter, or the same character. */
  predicate AlikeChar(c: char, d: char) {
    || c == d
    || ('A' <= c <= 'Z' && d as int == c as int + 32)
    || ('A' <= d <= 'Z' && c as int == d as int + 32)
  }

  predicate Alike(a: string, b: string) {
    |a| == |b| && forall i :: 0 <= i < |a| ==> AlikeChar(a[i], b[i])
  }

  lemma LowerIsAlike(c: char, d: char)
    requires !('A' <= d <= 'Z')
    ensures Lower(c) == d <==> AlikeChar(c, d)
  {
  }

  lemma LoweredIsAlike(a: string, name: string)
    requires forall i :: 0 <= i < |name| ==> !('A' <= name[i] <= 'Z')
    ensures Lowered(a) == name <==> Alike(a, name)
  {
    forall c, d | !('A' <= d <= 'Z')
      ensures Lower(c) == d <==> AlikeChar(c, d)
    {
      LowerIsAlike(c, d);
    }
    hide Lower, AlikeChar;
    if Alike(a, name) {
      assert forall i :: 0 <= i < |a| ==> Lowered(a)[i] == name[i];
    }
    if Lowered(a) == name {
      forall i | 0 <= i < |a|
        ensures AlikeChar(a[i], name[i])
      {
        assert Lowered(a)[i] == Lower(a[i]);
      }
    }
  }

  /** THE MODIFIER NAMES, in any case: super and logo, alt, ctrl and control, shift, and no other. */
  lemma ModifierNames(tok: string)
    ensures ModifierBit(tok) == Some(64) <==> Alike(tok, "super") || Alike(tok, "logo")
    ensures ModifierBit(tok) == Some(8) <==> Alike(tok, "alt")
    ensures ModifierBit(tok) == Some(4) <==> Alike(tok, "ctrl") || Alike(tok, "control")
    ensures ModifierBit(tok) == Some(1) <==> Alike(tok, "shift")
    ensures ModifierBit(tok).Some? ==> ModifierBit(tok).value in {1, 4, 8, 64}
  {
    LoweredIsAlike(tok, "super");
    LoweredIsAlike(tok, "logo");
    LoweredIsAlike(tok, "alt");
    LoweredIsAlike(tok, "ctrl");
    LoweredIsAlike(tok, "control");
    LoweredIsAlike(tok, "shift");
    hide Lowered, Alike;
    NamesDiffer();
  }

  lemma NamesDiffer()
    ensures "alt" != "super" && "alt" != "logo" && "ctrl" != "super" && "ctrl" != "logo" && "ctrl" != "alt"
    ensures "control" != "super" && "control" != "logo" && "control" != "alt"
    ensures "shift" != "super" && "shift" != "logo" && "shift" != "alt" && "shift" != "ctrl" && "shift" != "control"
  {
    assert "shift"[1] != "super"[1] && "ctrl"[0] != "logo"[0];
  }

  // ---- splitting on '+' ----

  predicate PlusFree(tok: string) {
    '+' !in tok
  }

  predicate AllPlusFree(tokens: seq<string>) {
    forall t :: t in tokens ==> PlusFree(t)
  }

  /** The text whose '+'-separated tokens these are. */
  function Join(tokens: seq<string>): string
    requires tokens != []
  {
    if |tokens| == 1 then tokens[0] else tokens[0] + "+" + Join(tokens[1..])
  }

  lemma {:induction false} JoinSnoc(tokens: seq<string>, tok: string)
    requires tokens != []
    ensures Join(tokens + [tok]) == Join(tokens) + "+" + tok
  {
    assert (tokens + [tok])[1..] == tokens[1..] + [tok];
    if |tokens| == 1 {
      assert tokens[1..] + [tok] == [tok];
    } else {
      JoinSnoc(tokens[1..], tok);
    }
  }

  /** A '+'-free token ends where the first '+' is, so two readings of a text start alike. */
  lemma HeadsAgree(a: string, b: string, x: string, y: string)
    requires PlusFree(a) && PlusFree(b) && a + x == b + y
    requires x != [] ==> x[0] == '+'
    requires y != [] ==> y[0] == '+'
    ensures a == b && x == y
  {
    var whole := a + x;
    assert whole[..|a|] == a && whole[|a|..] == x && whole[..|b|] == b && whole[|b|..] == y;
    assert x != [] ==> whole[|a|] == '+';
    assert y != [] ==> whole[|b|] == '+';
    assert forall k :: 0 <= k < |a| ==> whole[k] == a[k] != '+';
    assert forall k :: 0 <= k < |b| ==> whole[k] == b[k] != '+';
    assert |a| == |b|;
  }

  /** A text is the join of only one list of '+'-free tokens. */
  lemma {:induction false} TokensAreUnique(ts: seq<string>, us: seq<string>)
    requires ts != [] && us != [] && AllPlusFree(ts) && AllPlusFree(us) && Join(ts) == Join(us)
    ensures ts == us
    decreases |ts|
  {
    var x := if |ts| == 1 then "" else "+" + Join(ts[1..]);
    var y := if |us| == 1 then "" else "+" + Join(us[1..]);
    assert Join(ts) == ts[0] + x && Join(us) == us[0] + y;
    HeadsAgree(ts[0], us[0], x, y);
    if |ts| == 1 {
    } else {
      assert x[1..] == Join(ts[1..]) && y[1..] == Join(us[1..]);
      TokensAreUnique(ts[1..], us[1..]);
      assert ts == [ts[0]] + ts[1..] && us == [us[0]] + us[1..];
    }
  }

  /** The split loop: its tokens hold no '+' and join back to the input, so by TokensAreUnique
      they are the only such tokens. */
  method Split(keys: string) returns (tokens: seq<string>)
    ensures tokens != [] && AllPlusFree(tokens) && Join(tokens) == keys
  {
    tokens := [];
    var start := 0;
    for i := 0 to |keys| + 1
      invariant 0 <= start <= i && (i <= |keys| ==> PlusFree(keys[start..i]))
      invariant AllPlusFree(tokens)
      invariant tokens == [] ==> start == 0 && i <= |keys|
      invariant tokens != [] && i <= |keys| ==> Join(tokens) + "+" == keys[..start]
      invariant i == |keys| + 1 ==> tokens != [] && Join(tokens) == keys
    {
      if i == |keys| || keys[i] == '+' {
        var tok := keys[start..i];
        if tokens != [] {
          JoinSnoc(tokens, tok);
          assert keys[..i] == keys[..start] + tok;
        } else {
          assert tokens + [tok] == [tok];
        }
        assert i == |keys| ==> keys[..i] == keys;
        assert i < |keys| ==> keys[..i + 1] == keys[..i] + "+";
        tokens := tokens + [tok];
        start := i + 1;
      } else {
        assert keys[start..i + 1] == keys[start..i] + [keys[i]];
      }
    }
  }

  // ---- combos ----

  predicate AllModifiers(names: seq<string>) {
    forall n :: n in names ==> IsModifier(n)
  }

  predicate AllWords(tokens: seq<string>) {
    forall t :: t in tokens ==> PlusFree(t) && t != ""
  }

  /** The modifier bits of some modifier names together. */
  function Bits(names: seq<string>): bv32
    requires AllModifiers(names)
  {
    if names == [] then 0
    else
      var last := names[|names| - 1];
      assert last in names && IsModifier(last);
      Bits(names[..|names| - 1]) | ModifierBit(last).value
  }

  /** The grammar: one modifier alone is a tap; otherwise modifiers and then a key that is not one. */
  predicate Reads(resolve: string -> bv32, tokens: seq<string>, c: Combo) {
    && tokens != []
    && AllWords(tokens)
    && var last := tokens[|tokens| - 1];
       if c.isTap then |tokens| == 1 && ModifierBit(last) == Some(c.modifiers) && c.keysym == 0
       else
         var names := tokens[..|tokens| - 1];
         && AllModifiers(names)
         && !IsModifier(last)
         && c.modifiers == Bits(names)
         && c.keysym == resolve(last) != 0
  }

  /** That a `keys` string stands for a combo. */
  ghost predicate Denotes(resolve: string -> bv32, keys: string, c: Combo) {
    exists tokens :: Reads(resolve, tokens, c) && Join(tokens) == keys
  }

  /** No string stands for two combos. */
  lemma DenotesOne(resolve: string -> bv32, keys: string, c: Combo, d: Combo)
    requires Denotes(resolve, keys, c) && Denotes(resolve, keys, d)
    ensures c == d
  {
    var ts :| Reads(resolve, ts, c) && Join(ts) == keys;
    var us :| Reads(resolve, us, d) && Join(us) == keys;
    TokensAreUnique(ts, us);
  }

  /** parse_combo accepts exactly the strings of the grammar, and gives the combo they stand for. */
  method ParseCombo(resolve: string -> bv32, keys: string) returns (parsed: Option<Combo>)
    ensures parsed.Some? ==> Denotes(resolve, keys, parsed.value)
    ensures parsed.None? ==> forall c :: !Denotes(resolve, keys, c)
  {
    if keys == "" {
      forall tokens, c | Reads(resolve, tokens, c)
        ensures Join(tokens) != keys
      {
        assert tokens[0] in tokens;
      }
      return None;
    }
    var tokens := Split(keys);
    parsed := ReadTokens(resolve, tokens);
    if parsed.None? {
      forall c | Denotes(resolve, keys, c)
        ensures false
      {
        var ts :| Reads(resolve, ts, c) && Join(ts) == keys;
        TokensAreUnique(ts, tokens);
      }
    }
  }

  method ReadTokens(resolve: string -> bv32, tokens: seq<string>) returns (parsed: Option<Combo>)
    requires tokens != [] && AllPlusFree(tokens)
    ensures parsed.Some? ==> Reads(resolve, tokens, parsed.value)
    ensures parsed.None? ==> forall c :: !Reads(resolve, tokens, c)
  {
    hide ModifierBit, PlusFree, Reads;
    for i := 0 to |tokens|
      invariant forall j :: 0 <= j < i ==> tokens[j] != ""
    {
      if tokens[i] == "" {
        EmptyTokenIsNotRead(resolve, tokens, i);
        return None;
      }
    }
    if |tokens| == 1 {
      var m := LookUpModifier(tokens[0]);
      if m.Some? {
        TapIsRead(resolve, tokens, m.value);
        return Some(Combo(m.value, 0, true));
      }
    }
    var modifiers: bv32 := 0;
    for i := 0 to |tokens| - 1
      invariant AllModifiers(tokens[..i])
      invariant modifiers == Bits(tokens[..i])
    {
      var m := LookUpModifier(tokens[i]);
      if m.None? {
        OtherTokenIsNotRead(resolve, tokens, i);
        return None;
      }
      assert tokens[..i + 1][..i] == tokens[..i];
      modifiers := modifiers | m.value;
    }
    var last := tokens[|tokens| - 1];
    var m := LookUpModifier(last);
    if m.Some? {
      WrongKeyIsNotRead(resolve, tokens);
      return None;
    }
    var keysym := resolve(last);
    if keysym == 0 {
      WrongKeyIsNotRead(resolve, tokens);
      return None;
    }
    ChordIsRead(resolve, tokens);
    return Some(Combo(modifiers, keysym, false));
  }

  lemma EmptyTokenIsNotRead(resolve: string -> bv32, tokens: seq<string>, i: nat)
    requires i < |tokens| && tokens[i] == ""
    ensures forall c :: !Reads(resolve, tokens, c)
  {
    assert tokens[i] in tokens;
  }

  lemma OtherTokenIsNotRead(resolve: string -> bv32, tokens: seq<string>, i: nat)
    requires i < |tokens| - 1 && !IsModifier(tokens[i])
    ensures forall c :: !Reads(resolve, tokens, c)
  {
    assert tokens[i] in tokens[..|tokens| - 1];
  }

  lemma WrongKeyIsNotRead(resolve: string -> bv32, tokens: seq<string>)
    requires tokens != [] && (|tokens| == 1 ==> !IsModifier(tokens[0]))
    requires var last := tokens[|tokens| - 1]; IsModifier(last) || resolve(last) == 0
    ensures forall c :: !Reads(resolve, tokens, c)
  {
  }

  lemma TapIsRead(resolve: string -> bv32, tokens: seq<string>, bit: bv32)
    requires |tokens| == 1 && ModifierBit(tokens[0]) == Some(bit) && AllPlusFree(tokens) && tokens[0] != ""
    ensures Reads(resolve, tokens, Combo(bit, 0, true))
  {
  }

  lemma ChordIsRead(resolve: string -> bv32, tokens: seq<string>)
    requires tokens != [] && AllPlusFree(tokens) && (forall j :: 0 <= j < |tokens| ==> tokens[j] != "")
    requires AllModifiers(tokens[..|tokens| - 1])
    requires var last := tokens[|tokens| - 1]; !IsModifier(last) && resolve(last) != 0
    ensures Reads(resolve, tokens, Combo(Bits(tokens[..|tokens| - 1]), resolve(tokens[|tokens| - 1]), false))
  {
  }

  // ---- printing ----

  /** The names of a set of modifier bits, in a fixed order. */
  function Names(modifiers: bv32): seq<string> {
    Chosen(modifiers & CTRL != 0, modifiers & ALT != 0, modifiers & SHIFT != 0, modifiers & LOGO != 0)
  }

  function Chosen(ctrl: bool, alt: bool, shift: bool, logo: bool): seq<string> {
    Optional("Ctrl", ctrl) + Optional("Alt", alt) + Optional("Shift", shift) + Optional("Super", logo)
  }

  function Optional(name: string, on: bool): seq<string> {
    if on then [name] else []
  }

  /** A combo as a user would write it, given a name for its key. */
  function Print(c: Combo, key: string): string {
    if c.isTap && Names(c.modifiers) != [] then Join(Names(c.modifiers)) else Join(Names(c.modifiers) + [key])
  }

  /** A key name the parser can take as the last token. */
  predicate IsKeyName(resolve: string -> bv32, key: string, keysym: bv32) {
    key != "" && PlusFree(key) && !IsModifier(key) && resolve(key) == keysym != 0
  }

  predicate Printable(c: Combo) {
    if c.isTap then c.modifiers in {SHIFT, CTRL, ALT, LOGO} && c.keysym == 0
    else c.modifiers & RELEVANT == c.modifiers
  }

  lemma NamesOfBits()
    ensures ModifierBit("Ctrl") == Some(CTRL) && ModifierBit("Alt") == Some(ALT)
    ensures ModifierBit("Shift") == Some(SHIFT) && ModifierBit("Super") == Some(LOGO)
  {
    assert Lowered("Ctrl") == "ctrl";
    assert Lowered("Alt") == "alt";
    assert Lowered("Shift") == "shift";
    assert Lowered("Super") == "super";
  }

  lemma BitsSnoc(names: seq<string>, name: string)
    requires AllModifiers(names) && IsModifier(name)
    ensures Bits(names + [name]) == Bits(names) | ModifierBit(name).value
  {
    assert (names + [name])[..|names|] == names;
  }

  /** The printed names stand for the bits they were printed from. */
  lemma NamesReadBack(modifiers: bv32)
    ensures AllModifiers(Names(modifiers)) && AllWords(Names(modifiers))
    ensures Bits(Names(modifiers)) == modifiers & RELEVANT
  {
    BitsOfChosen(modifiers & CTRL != 0, modifiers & ALT != 0, modifiers & SHIFT != 0, modifiers & LOGO != 0);
    hide Bits, Chosen;
    MaskSplits(modifiers);
  }

  function Bit(on: bool, bit: bv32): bv32 {
    if on then bit else 0
  }

  lemma BitsOfChosen(ctrl: bool, alt: bool, shift: bool, logo: bool)
    ensures AllModifiers(Chosen(ctrl, alt, shift, logo)) && AllWords(Chosen(ctrl, alt, shift, logo))
    ensures Bits(Chosen(ctrl, alt, shift, logo))
      == Bit(ctrl, CTRL) | Bit(alt, ALT) | Bit(shift, SHIFT) | Bit(logo, LOGO)
  {
    NamesOfBits();
    assert WordModifier("Ctrl") && WordModifier("Alt") && WordModifier("Shift") && WordModifier("Super");
    hide IsModifier, ModifierBit, Bits, AllModifiers, AllWords, WordModifier;
    BitsOfFour("Ctrl", ctrl, "Alt", alt, "Shift", shift, "Super", logo);
  }

  predicate WordModifier(name: string) {
    IsModifier(name) && PlusFree(name) && name != ""
  }

  lemma BitsOfFour(a: string, onA: bool, b: string, onB: bool, c: string, onC: bool, d: string, onD: bool)
    requires WordModifier(a) && WordModifier(b) && WordModifier(c) && WordModifier(d)
    ensures var names := Optional(a, onA) + Optional(b, onB) + Optional(c, onC) + Optional(d, onD);
      && AllModifiers(names) && AllWords(names)
      && Bits(names) == Bit(onA, ModifierBit(a).value) | Bit(onB, ModifierBit(b).value)
        | Bit(onC, ModifierBit(c).value) | Bit(onD, ModifierBit(d).value)
  {
    var first, second, third := Optional(a, onA), Optional(b, onB), Optional(c, onC);
    assert Bits([]) == 0;
    assert [] + first == first;
    ZeroOr(Bit(onA, ModifierBit(a).value));
    hide ModifierBit, Bits, Bit, AllModifiers, AllWords, Optional;
    BitsOfOptional([], a, onA);
    BitsOfOptional(first, b, onB);
    BitsOfOptional(first + second, c, onC);
    BitsOfOptional(first + second + third, d, onD);
  }

  lemma ZeroOr(b: bv32)
    ensures 0 | b == b
  {
  }

  lemma BitsOfOptional(names: seq<string>, name: string, on: bool)
    requires AllModifiers(names) && AllWords(names) && IsModifier(name) && PlusFree(name) && name != ""
    ensures AllModifiers(names + Optional(name, on)) && AllWords(names + Optional(name, on))
    ensures Bits(names + Optional(name, on)) == Bits(names) | Bit(on, ModifierBit(name).value)
  {
    if on {
      BitsSnoc(names, name);
    } else {
      assert names + [] == names;
      OrZero(Bits(names));
    }
  }

  lemma OrZero(b: bv32)
    ensures b | 0 == b
  {
  }

  /** A mask is the union of its bits, taken one at a time. */
  lemma MaskSplits(m: bv32)
    ensures m & RELEVANT
      == Bit(m & CTRL != 0, CTRL) | Bit(m & ALT != 0, ALT) | Bit(m & SHIFT != 0, SHIFT) | Bit(m & LOGO != 0, LOGO)
  {
    SingleBits(m);
    assert RELEVANT == ((CTRL | ALT) | SHIFT) | LOGO;
    hide Bit;
    AndOr(m, CTRL, ALT);
    AndOr(m, CTRL | ALT, SHIFT);
    AndOr(m, (CTRL | ALT) | SHIFT, LOGO);
  }

  lemma AndOr(m: bv32, a: bv32, b: bv32)
    ensures m & (a | b) == (m & a) | (m & b)
  {
  }

  lemma SingleBits(m: bv32)
    ensures m & CTRL == Bit(m & CTRL != 0, CTRL) && m & ALT == Bit(m & ALT != 0, ALT)
    ensures m & SHIFT == Bit(m & SHIFT != 0, SHIFT) && m & LOGO == Bit(m & LOGO != 0, LOGO)
  {
    CtrlBit(m);
    AltBit(m);
    ShiftBit(m);
    LogoBit(m);
  }

  lemma CtrlBit(m: bv32)
    ensures m & CTRL == 0 || m & CTRL == CTRL
  {
  }

  lemma AltBit(m: bv32)
    ensures m & ALT == 0 || m & ALT == ALT
  {
  }

  lemma ShiftBit(m: bv32)
    ensures m & SHIFT == 0 || m & SHIFT == SHIFT
  {
  }

  lemma LogoBit(m: bv32)
    ensures m & LOGO == 0 || m & LOGO == LOGO
  {
  }

  /** ROUND TRIP: a printed combo is read back, whatever its modifiers. */
  lemma PrintedComboIsReadBack(resolve: string -> bv32, c: Combo, key: string)
    requires Printable(c) && (!c.isTap ==> IsKeyName(resolve, key, c.keysym))
    ensures Denotes(resolve, Print(c, key), c)
  {
    var names := Names(c.modifiers);
    NamesReadBack(c.modifiers);
    if c.isTap {
      NamesOfBits();
      TapNames(c.modifiers);
      assert Reads(resolve, names, c);
    } else {
      var tokens := names + [key];
      assert tokens[..|tokens| - 1] == names;
      assert Reads(resolve, tokens, c);
    }
  }

  /** So parsing gives the combo back. */
  method ParsePrinted(resolve: string -> bv32, c: Combo, key: string) returns (parsed: Option<Combo>)
    requires Printable(c) && (!c.isTap ==> IsKeyName(resolve, key, c.keysym))
    ensures parsed == Some(c)
  {
    parsed := ParseCombo(resolve, Print(c, key));
    PrintedComboIsReadBack(resolve, c, key);
    if parsed.Some? {
      DenotesOne(resolve, Print(c, key), parsed.value, c);
    }
  }

  lemma TapNames(m: bv32)
    requires m in {SHIFT, CTRL, ALT, LOGO}
    ensures |Names(m)| == 1 && ModifierBit(Names(m)[0]) == Some(m)
  {
    NamesOfBits();
    assert SHIFT & CTRL == 0 && SHIFT & ALT == 0 && SHIFT & LOGO == 0;
    assert CTRL & SHIFT == 0 && CTRL & ALT == 0 && CTRL & LOGO == 0;
    assert ALT & SHIFT == 0 && ALT & CTRL == 0 && ALT & LOGO == 0;
    assert LOGO & SHIFT == 0 && LOGO & CTRL == 0 && LOGO & ALT == 0;
    assert SHIFT & SHIFT != 0 && CTRL & CTRL != 0 && ALT & ALT != 0 && LOGO & LOGO != 0;
  }

  lemma {:induction false} BitsAreRelevant(names: seq<string>)
    requires AllModifiers(names)
    ensures Bits(names) & RELEVANT == Bits(names)
    decreases |names|
  {
    if names == [] {
    } else {
      var rest, last := names[..|names| - 1], names[|names| - 1];
      assert last in names;
      BitsAreRelevant(rest);
      OrIsRelevant(Bits(rest), ModifierBit(last).value);
    }
  }

  lemma OrIsRelevant(a: bv32, b: bv32)
    requires a & RELEVANT == a && b in {SHIFT, CTRL, ALT, LOGO}
    ensures (a | b) & RELEVANT == a | b
  {
  }

  /** And the other way: what a string stands for can be printed, and its print stands for it too,
      so a config text can be rewritten in one spelling without changing a binding. */
  lemma ReadComboIsPrintable(resolve: string -> bv32, keys: string, c: Combo)
    requires Denotes(resolve, keys, c)
    ensures Printable(c)
    ensures c.isTap ==> forall key :: Denotes(resolve, Print(c, key), c)
    ensures !c.isTap ==> exists key :: IsKeyName(resolve, key, c.keysym) && Denotes(resolve, Print(c, key), c)
  {
    var tokens :| Reads(resolve, tokens, c) && Join(tokens) == keys;
    var last := tokens[|tokens| - 1];
    assert last in tokens;
    if c.isTap {
      forall key
        ensures Denotes(resolve, Print(c, key), c)
      {
        PrintedComboIsReadBack(resolve, c, key);
      }
    } else {
      BitsAreRelevant(tokens[..|tokens| - 1]);
      assert IsKeyName(resolve, last, c.keysym);
      PrintedComboIsReadBack(resolve, c, last);
    }
  }
}
