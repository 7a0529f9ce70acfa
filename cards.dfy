/** The values the DeckNotes component works with: a card, the form draft the
    create/edit modal edits, the whitespace trimming used to validate that
    draft, the colour-to-class lookup, and the built-in default and sample
    card lists. */
module Cards {

  datatype Option<T> = None | Some(value: T)

  /** A note card as it is kept in the list and in storage. `id` is a JS
      number that in practice is an integer (1..4 for the defaults, a
      millisecond clock reading otherwise); `createdAt` is an ISO-8601 text. */
  datatype Card = Card(
    id: int,
    title: string,
    summary: string,
    description: string,
    color: string,
    createdAt: string)

  /** The draft held by the create/edit form. */
  datatype Form = Form(title: string, summary: string, description: string, color: string)

  /** The form after `resetForm`, and at mount: three empty fields and colour
      blue. Submitting it untouched is rejected. */
  function EmptyForm(): (f: Form)
    ensures !FormIsComplete(f)
    ensures f.color in ColorNames
  {
    Form("", "", "", "blue")
  }

  /** The card `handleSubmitCard` builds from a draft: the three text fields
      trimmed, the colour as chosen. Its text is always already trimmed. */
  function CardFromForm(id: int, f: Form, createdAt: string): (c: Card)
    ensures Trimmed(c)
  {
    TrimIdempotent(f.title);
    TrimIdempotent(f.summary);
    TrimIdempotent(f.description);
    Card(id, Trim(f.title), Trim(f.summary), Trim(f.description), f.color, createdAt)
  }

  /** A card whose text fields have no surrounding whitespace. */
  predicate Trimmed(c: Card) {
    Trim(c.title) == c.title && Trim(c.summary) == c.summary && Trim(c.description) == c.description
  }

  /** The draft `handleEditCard` copies out of a card. Submitting it
      unchanged gives back the same card, as long as its text is trimmed,
      which every card built from a form is. */
  function FormOf(c: Card): (f: Form)
    ensures Trimmed(c) ==> CardFromForm(c.id, f, c.createdAt) == c
  {
    Form(c.title, c.summary, c.description, c.color)
  }

  // ---------------------------------------------------------------------------
  // String.prototype.trim

  /** The characters ECMAScript's `trim` strips: WhiteSpace (section 12.2 of
      ECMA-262: TAB, VT, FF, ZWNBSP and every Zs character) and
      LineTerminator (section 12.3: LF, CR, LS, PS). */
  predicate IsWhitespace(c: char) {
    || c == '\t' || c == '\n' || c == '\U{000B}' || c == '\U{000C}' || c == '\r'
    || c == ' ' || c == '\U{00A0}' || c == '\U{1680}'
    || ('\U{2000}' <= c <= '\U{200A}')
    || c == '\U{2028}' || c == '\U{2029}' || c == '\U{202F}' || c == '\U{205F}'
    || c == '\U{3000}' || c == '\U{FEFF}'
  }

  /** Drops the longest all-whitespace prefix. */
  function TrimStart(s: string): string {
    if s == [] || !IsWhitespace(s[0]) then s else TrimStart(s[1..])
  }

  /** Drops the longest all-whitespace suffix. */
  function TrimEnd(s: string): string {
    if s == [] || !IsWhitespace(s[|s| - 1]) then s else TrimEnd(s[..|s| - 1])
  }

  /** `s.trim()`. The result is no longer than `s`, and when not empty it
      neither starts nor ends with whitespace (`TrimSpec` says the rest). */
  function Trim(s: string): (r: string)
    ensures |r| <= |s|
    ensures r != [] ==> !IsWhitespace(r[0]) && !IsWhitespace(r[|r| - 1])
  {
    TrimStartSpec(s);
    TrimEndSpec(TrimStart(s));
    TrimEnd(TrimStart(s))
  }

  /** Trimming twice is trimming once. */
  lemma TrimIdempotent(s: string)
    ensures Trim(Trim(s)) == Trim(s)
  {
    var r := Trim(s);
    if r != [] {
      assert TrimStart(r) == r;
      assert TrimEnd(r) == r;
    }
  }

  /** TrimStart leaves a suffix of `s`, drops only whitespace, and leaves
      nothing that starts with whitespace. */
  lemma {:induction false} TrimStartSpec(s: string)
    ensures var r := TrimStart(s);
      |r| <= |s| && r == s[|s| - |r|..] &&
      (forall i :: 0 <= i < |s| - |r| ==> IsWhitespace(s[i])) &&
      (r == [] || !IsWhitespace(r[0]))
  {
    if s != [] && IsWhitespace(s[0]) {
      TrimStartSpec(s[1..]);
      var r := TrimStart(s[1..]);
      forall i | 0 <= i < |s| - |r| ensures IsWhitespace(s[i]) {
        if i > 0 { assert s[i] == s[1..][i - 1]; }
      }
    }
  }

  /** TrimEnd leaves a prefix of `s`, drops only whitespace, and leaves
      nothing that ends with whitespace. */
  lemma {:induction false} TrimEndSpec(s: string)
    ensures var r := TrimEnd(s);
      |r| <= |s| && r == s[..|r|] &&
      (forall i :: |r| <= i < |s| ==> IsWhitespace(s[i])) &&
      (r == [] || !IsWhitespace(r[|r| - 1]))
  {
    if s != [] && IsWhitespace(s[|s| - 1]) {
      var t := s[..|s| - 1];
      TrimEndSpec(t);
      var r := TrimEnd(t);
      forall i | |r| <= i < |s| ensures IsWhitespace(s[i]) {
        if i < |s| - 1 { assert s[i] == t[i]; }
      }
    }
  }

  /** `Trim(s)` is the slice of `s` between its first and its last
      non-whitespace character: everything dropped is whitespace, the result
      neither starts nor ends with whitespace, and it is empty exactly when
      `s` is all whitespace. */
  lemma TrimSpec(s: string)
    ensures var r := Trim(s);
      var k := |s| - |TrimStart(s)|;
      0 <= k && k + |r| <= |s| && r == s[k..k + |r|] &&
      (forall i :: 0 <= i < k || k + |r| <= i < |s| ==> IsWhitespace(s[i])) &&
      (r != [] ==> !IsWhitespace(r[0]) && !IsWhitespace(r[|r| - 1])) &&
      (r == [] <==> forall i :: 0 <= i < |s| ==> IsWhitespace(s[i]))
  {
    var t := TrimStart(s);
    TrimStartSpec(s);
    TrimEndSpec(t);
    var r := Trim(s);
    var k := |s| - |t|;
    assert r == t[..|r|];
    assert forall i :: 0 <= i < |t| ==> t[i] == s[k + i];
    forall i | k + |r| <= i < |s| ensures IsWhitespace(s[i]) {
      assert s[i] == t[i - k];
    }
    if r == [] {
      assert t == [];
    }
  }

  /** The validation `handleSubmitCard` applies to the draft: no text field
      may be empty once trimmed. The colour is not checked. */
  predicate FormIsComplete(f: Form)
    ensures FormIsComplete(f) ==> f.title != [] && f.summary != [] && f.description != []
  {
    Trim(f.title) != [] && Trim(f.summary) != [] && Trim(f.description) != []
  }

  /** A draft passes validation exactly when each of its three text fields
      holds at least one non-whitespace character. */
  lemma FormIsCompleteIff(f: Form)
    ensures FormIsComplete(f) <==>
      (exists i :: 0 <= i < |f.title| && !IsWhitespace(f.title[i])) &&
      (exists i :: 0 <= i < |f.summary| && !IsWhitespace(f.summary[i])) &&
      (exists i :: 0 <= i < |f.description| && !IsWhitespace(f.description[i]))
  {
    TrimSpec(f.title);
    TrimSpec(f.summary);
    TrimSpec(f.description);
  }

  // ---------------------------------------------------------------------------
  // getColorClass

  /** The eight colour names of the colour picker, in its order. */
  const ColorNames: seq<string> :=
    ["red", "blue", "green", "yellow", "purple", "pink", "indigo", "gray"]

  /** `getColorClass` as evidently intended: each colour name maps to its
      Tailwind background class, anything else to blue. */
  function ColorClass(color: string): (r: string)
    ensures color in ColorNames ==> r == "bg-" + color + "-600"
    ensures color !in ColorNames ==> r == "bg-blue-600"
  {
    match color
    case "red" => "bg-red-600"
    case "blue" => "bg-blue-600"
    case "green" => "bg-green-600"
    case "yellow" => "bg-yellow-600"
    case "purple" => "bg-purple-600"
    case "pink" => "bg-pink-600"
    case "indigo" => "bg-indigo-600"
    case "gray" => "bg-gray-600"
    case _ => "bg-blue-600"
  }

  /** Every colour, known or not, gets one of the eight picker classes. */
  lemma ColorClassIsPickerClass(color: string)
    ensures exists name :: name in ColorNames && ColorClass(color) == "bg-" + name + "-600"
  {
    if color in ColorNames {
      assert ColorClass(color) == "bg-" + color + "-600";
    } else {
      assert ColorNames[1] == "blue";
      assert ColorClass(color) == "bg-" + ColorNames[1] + "-600";
    }
  }

  /** What a property read `colorMap[color]` on a plain object literal can
      yield: one of its own string values, a member inherited from
      `Object.prototype` (a function, or the prototype object itself for
      `__proto__`), or `undefined`. */
  datatype PropertyValue = OwnString(text: string) | Inherited(key: string) | Undefined

  /** The keys every plain object inherits from `Object.prototype`
      (section 20.1.3 of ECMA-262 and its annex B.2.2). */
  const ObjectPrototypeKeys: set<string> := {
    "constructor", "hasOwnProperty", "isPrototypeOf", "propertyIsEnumerable",
    "toLocaleString", "toString", "valueOf", "__proto__",
    "__defineGetter__", "__defineSetter__", "__lookupGetter__", "__lookupSetter__"
  }

  /** `colorMap[color]` for the eight-entry object literal. */
  function ColorMapLookup(color: string): (v: PropertyValue)
    ensures v.OwnString? <==> color in ColorNames
    ensures v.Inherited? <==> color in ObjectPrototypeKeys
  {
    if color in ColorNames then OwnString(ColorClass(color))
    else if color in ObjectPrototypeKeys then Inherited(color)
    else Undefined
  }

  /** `getColorClass` AS WRITTEN: `colorMap[color] || 'bg-blue-600'`. Only
      `undefined` is falsy here, so an inherited member is returned as is. */
  function ColorClassAsWritten(color: string): (v: PropertyValue)
    ensures color in ObjectPrototypeKeys ==> v == Inherited(color)
    ensures color !in ObjectPrototypeKeys ==> v == OwnString(ColorClass(color))
  {
    match ColorMapLookup(color)
    case Undefined => OwnString("bg-blue-600")
    case other => other
  }

  /** The lookup as written is not total over strings: a card whose colour is
      `"toString"` (possible for an imported card) gets a function, not a
      class name, and no blue fallback. */
  lemma ColorClassAsWrittenNotTotal()
    ensures ColorClassAsWritten("toString") == Inherited("toString")
    ensures ColorClassAsWritten("constructor") == Inherited("constructor")
    ensures ColorClassAsWritten("__proto__") == Inherited("__proto__")
    ensures ColorClass("toString") == "bg-blue-600"
  {
    assert "toString" !in ColorNames;
  }

  // ---------------------------------------------------------------------------
  // Built-in card lists

  /** Pairwise distinct ids. */
  predicate DistinctIds(cs: seq<Card>) {
    forall i, j :: 0 <= i < j < |cs| ==> cs[i].id != cs[j].id
  }

  /** `getDefaultCards`: four cards with ids 1, 2, 3, 4; `stamps` are the four
      `new Date().toISOString()` readings, one per card. */
  function DefaultCards(stamps: seq<string>): (r: seq<Card>)
    requires |stamps| == 4
    ensures |r| == 4 && DistinctIds(r)
    ensures forall i :: 0 <= i < 4 ==> r[i].id == i + 1 && r[i].createdAt == stamps[i]
  {
    [ Card(1, "Rage", "", "", "red", stamps[0]),
      Card(2, "Flurry of Blows", "", "", "purple", stamps[1]),
      Card(3, "Lucky", "", "", "green", stamps[2]),
      Card(4, "Grappled", "", "", "yellow", stamps[3]) ]
  }

  const SampleTitles: seq<string> := [
    "Fireball", "Great Weapon Master", "Poisoned", "Healing Potion", "Shield Spell",
    "Sneak Attack", "Stunned", "Hempen Rope", "Action Surge", "Charmed",
    "Counterspell", "Sharpshooter", "Exhaustion", "Thieves' Tools", "Inspiration",
    "Invisible", "Healing Word", "Immovable Rod", "Opportunity Attack", "Bardic Inspiration"]

  const SampleColors: seq<string> := [
    "red", "purple", "green", "red", "blue", "gray", "yellow", "gray", "blue", "pink",
    "purple", "green", "red", "gray", "yellow", "indigo", "pink", "blue", "red", "purple"]

  /** The twenty cards of `generateSampleCards`. The k-th card (k from 1) has id
      `Date.now() + k`, where each card reads the clock afresh: `clock[k-1]`
      is that reading and `stamps[k-1]` its `toISOString` counterpart. */
  function SampleCards(clock: seq<int>, stamps: seq<string>): (r: seq<Card>)
    requires |clock| == 20 && |stamps| == 20
    ensures |r| == 20
    ensures forall i :: 0 <= i < 20 ==> r[i].id == clock[i] + i + 1 && r[i].createdAt == stamps[i]
  {
    seq(20, i requires 0 <= i < 20 =>
      Card(clock[i] + i + 1, SampleTitles[i], "", "", SampleColors[i], stamps[i]))
  }

  /** A clock that never runs backwards. */
  predicate NonDecreasing(clock: seq<int>) {
    forall i, j :: 0 <= i < j < |clock| ==> clock[i] <= clock[j]
  }

  /** Although every sample card reads the clock separately, the offsets
      1..20 make the ids strictly increasing, hence distinct, as long as the
      clock does not run backwards while the list is built. */
  lemma SampleIdsIncrease(clock: seq<int>, stamps: seq<string>)
    requires |clock| == 20 && |stamps| == 20
    requires NonDecreasing(clock)
    ensures var r := SampleCards(clock, stamps);
      forall i, j :: 0 <= i < j < 20 ==> r[i].id < r[j].id
    ensures DistinctIds(SampleCards(clock, stamps))
  {
    var r := SampleCards(clock, stamps);
    forall i, j | 0 <= i < j < 20 ensures r[i].id < r[j].id {
      assert clock[i] <= clock[j];
    }
  }
}
