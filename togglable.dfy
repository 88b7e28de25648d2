/** The three-way switch command of src/togglable.rs and its conversions:
    the lenient payload decoder, the conversions from `bool`,
    `Option<bool>` and a GPIO `Level`, the `as_str` text and the default. */
module Togglable {
  import opened Base

  datatype Togglable = On | Off | Toggle

  // ---------------------------------------------------------------------
  // Reference definition of the accepted spellings: a word in lower case,
  // in upper case, or capitalised.

  function UpperChar(c: char): (u: char)
    ensures c as int < 128 ==> u as int < 128
  {
    if 'a' <= c <= 'z' then (c as int - 32) as char else c
  }

  function Upper(s: string): (u: string)
    ensures |u| == |s|
    ensures IsAscii(s) ==> IsAscii(u)
  {
    seq(|s|, i requires 0 <= i < |s| => UpperChar(s[i]))
  }

  function Capitalised(s: string): (c: string)
    ensures |c| == |s|
    ensures IsAscii(s) ==> IsAscii(c)
  {
    if s == [] then [] else [UpperChar(s[0])] + s[1..]
  }

  /** `p` is `word` written in lower case, in upper case or capitalised. */
  predicate SpellsWord(p: seq<uint8>, word: string)
    requires IsAscii(word)
  {
    p == Ascii(word) || p == Ascii(Upper(word)) || p == Ascii(Capitalised(word))
  }

  /** The payloads that mean "on": `on` or `true` in one of the three casings, or `1`. */
  predicate SpellsOn(p: seq<uint8>) {
    SpellsWord(p, "on") || SpellsWord(p, "true") || p == Ascii("1")
  }

  /** The payloads that mean "off": `off` or `false` in one of the three casings, or `0`. */
  predicate SpellsOff(p: seq<uint8>) {
    SpellsWord(p, "off") || SpellsWord(p, "false") || p == Ascii("0")
  }

  /** The casings of the On words. */
  lemma CasingsOfOnWords()
    ensures Upper("on") == "ON" && Capitalised("on") == "On"
    ensures Upper("true") == "TRUE" && Capitalised("true") == "True"
  {
  }

  /** The casings of the Off words. */
  lemma CasingsOfOffWords()
    ensures Upper("off") == "OFF" && Capitalised("off") == "Off"
    ensures Upper("false") == "FALSE" && Capitalised("false") == "False"
  {
  }

  /** The bytes of the On spellings. */
  lemma OnSpellingBytes()
    ensures Ascii("ON") == [79, 78] && Ascii("On") == [79, 110] && Ascii("on") == [111, 110]
    ensures Ascii("TRUE") == [84, 82, 85, 69] && Ascii("True") == [84, 114, 117, 101]
    ensures Ascii("true") == [116, 114, 117, 101] && Ascii("1") == [49]
  {
  }

  /** The bytes of the Off spellings. */
  lemma OffSpellingBytes()
    ensures Ascii("OFF") == [79, 70, 70] && Ascii("Off") == [79, 102, 102] && Ascii("off") == [111, 102, 102]
    ensures Ascii("FALSE") == [70, 65, 76, 83, 69] && Ascii("False") == [70, 97, 108, 115, 101]
    ensures Ascii("false") == [102, 97, 108, 115, 101] && Ascii("0") == [48]
  {
  }

  /** No payload means both on and off, so the order of the two match arms is immaterial. */
  lemma SpellingsDisjoint(p: seq<uint8>)
    ensures !(SpellsOn(p) && SpellsOff(p))
  {
    CasingsOfOnWords();
    CasingsOfOffWords();
    OnSpellingBytes();
    OffSpellingBytes();
  }

  // ---------------------------------------------------------------------
  // The operations of src/togglable.rs.

  /** `From<&[u8]>`: the lenient decoder. Its meaning is stated by
      `FromBytesMeaning`; the byte strings are the ASCII codes of the
      spellings named in the comments. Only a payload of one to five
      bytes switches the output on or off. */
  function FromBytes(p: seq<uint8>): (t: Togglable)
    ensures t != Toggle ==> 1 <= |p| <= 5
  {
    if p == [79, 78] || p == [79, 110] || p == [111, 110]  // ON On on
       || p == [84, 82, 85, 69] || p == [84, 114, 117, 101] || p == [116, 114, 117, 101]  // TRUE True true
       || p == [49]  // 1
    then On
    else if p == [79, 70, 70] || p == [79, 102, 102] || p == [111, 102, 102]  // OFF Off off
       || p == [70, 65, 76, 83, 69] || p == [70, 97, 108, 115, 101] || p == [102, 97, 108, 115, 101]  // FALSE False false
       || p == [48]  // 0
    then Off
    else Toggle
  }

  /** The lenient decoder gives On exactly for the On spellings, Off
      exactly for the Off spellings, and Toggle for every other byte
      string (mixed case such as `oN`, `TOGGLE`, the empty payload): it
      never fails. */
  lemma FromBytesMeaning(p: seq<uint8>)
    ensures FromBytes(p) == On <==> SpellsOn(p)
    ensures FromBytes(p) == Off <==> SpellsOff(p)
    ensures FromBytes(p) == Toggle <==> !SpellsOn(p) && !SpellsOff(p)
  {
    CasingsOfOnWords();
    CasingsOfOffWords();
    OnSpellingBytes();
    OffSpellingBytes();
  }

  /** `From<bool>`: true is On, false is Off; never Toggle. */
  function FromBool(b: bool): (t: Togglable)
    ensures t != Toggle
    ensures t == On <==> b
  {
    if b then On else Off
  }

  /** `From<Option<bool>>`: a present value converts as a `bool` does; an absent one is Toggle. */
  function FromOption(o: Option<bool>): (t: Togglable)
    ensures o.Some? ==> t == FromBool(o.value)
    ensures o.None? <==> t == Toggle
  {
    match o
    case Some(true) => On
    case Some(false) => Off
    case None => Toggle
  }

  /** `From<Level>`: High is On, Low is Off, i.e. the level read as a `bool`. */
  function FromLevel(l: Level): (t: Togglable)
    ensures t == FromBool(l.ToBool())
    ensures t != Toggle
  {
    match l
    case High => On
    case Low => Off
  }

  /** `as_str`: the text of each variant. The lenient decoder reads every
      one of them back as the variant it came from, and none is longer
      than six characters. */
  function AsStr(t: Togglable): (s: string)
    ensures IsAscii(s) && 1 <= |s| <= 6
    ensures FromBytes(Ascii(s)) == t
  {
    match t
    case On => "true"
    case Off => "false"
    case Toggle => "toggle"
  }

  /** The texts of `as_str`: `true`, `false` and `toggle`. */
  lemma AsStrTexts()
    ensures AsStr(On) == "true" && AsStr(Off) == "false" && AsStr(Toggle) == "toggle"
  {
  }

  /** `Default`: the value of `false`. */
  function Default(): (t: Togglable)
    ensures t == FromBool(false)
  {
    Off
  }

  // ---------------------------------------------------------------------
  // Properties of the lenient decoder.

  /** The seven On spellings, one by one. */
  lemma OnSpellings()
    ensures FromBytes(Ascii("ON")) == On && FromBytes(Ascii("On")) == On && FromBytes(Ascii("on")) == On
    ensures FromBytes(Ascii("TRUE")) == On && FromBytes(Ascii("True")) == On && FromBytes(Ascii("true")) == On
    ensures FromBytes(Ascii("1")) == On
  {
    OnSpellingBytes();
  }

  /** The seven Off spellings, one by one. */
  lemma OffSpellings()
    ensures FromBytes(Ascii("OFF")) == Off && FromBytes(Ascii("Off")) == Off && FromBytes(Ascii("off")) == Off
    ensures FromBytes(Ascii("FALSE")) == Off && FromBytes(Ascii("False")) == Off && FromBytes(Ascii("false")) == Off
    ensures FromBytes(Ascii("0")) == Off
  {
    OffSpellingBytes();
  }

  /** The decoder is not case-insensitive: `oN` is `on` up to case but
      is Toggle, as are the word `TOGGLE` and the empty payload. */
  lemma OtherPayloadsToggle()
    ensures Upper("oN") == Upper("on") && FromBytes(Ascii("oN")) == Toggle
    ensures FromBytes(Ascii("TOGGLE")) == Toggle
    ensures FromBytes([]) == Toggle
  {
    assert Ascii("oN") == [111, 78];
  }

  /** The lenient decoding of each payload of `ps`, in order. */
  function DecodeAll(ps: seq<seq<uint8>>): (ts: seq<Togglable>)
    ensures |ts| == |ps|
    ensures forall i :: 0 <= i < |ps| ==> ts[i] == FromBytes(ps[i])
  {
    seq(|ps|, i requires 0 <= i < |ps| => FromBytes(ps[i]))
  }

  lemma DecodeAllExtend(ps: seq<seq<uint8>>, p: seq<uint8>)
    ensures DecodeAll(ps + [p]) == DecodeAll(ps) + [FromBytes(p)]
  {
  }
}
