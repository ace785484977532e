/**
  Five entries of the phrase table (ids 1, 2, 11, 12 and 13 of the Fajr list
  in app/page.tsx), in the list's order.
*/
module PhraseTable {
  import opened Activity
  import opened TimingLiterals

  const TakbirTiming: string := "0.0-2.5"

  const TakbirArabic: string := "الله أكبر"
  const TakbirTransliteration: string := "Allāhu Akbar"
  const TakbirPhonetics: string := "Al-lá-hu Ák-bar"
  const TakbirTranslation: string := "Dios es el más grande"

  const Takbir: Phrase := Phrase(
    1.0,
    TakbirArabic,
    TakbirTransliteration,
    TakbirPhonetics,
    TakbirTranslation,
    5.0, 2.0,
    TakbirTiming)

  const SubhanakaTiming: string := "0.0-2.4|2.4-4.0|4.0-5.60|5.60-7.35|7.35-11"

  const SubhanakaArabic: string := "سُبْحَانَكَ اللَّهُمَّ وَبِحَمْدِكَ،|وَتَبَارَكَ اسْمُكَ،|وَتَعَالَى جَدُّكَ،|وَلَا إِلَهَ غَيْرُكَ،|أَعُوذُ بِاللَّهِ مِنَ الشَّيْطَانِ الرَّجِيمِ"
  const SubhanakaTransliteration: string := "Subḥānaka Allāhumma wa biḥamdika|wa tabāraka smuka|wa taʿālā jadduka|wa lā ilāha ghayruk|aʿūdhu billāhi min ash-shayṭān ir-rajīm"
  const SubhanakaPhonetics: string := "Sub-já-na-ka Al-lá-hu-mma wa bi jám-diká|wa ta-bá-raká is-muká|wa ta-ʿá-lá jad-du-ká|wa lá i-lá-ha ghei-ruk|a-ʿú-dhu bil-lá-hi min ash-shay-tán ir-ra-jím"
  const SubhanakaTranslation: string := "Glorificado seas, oh Allah, y alabado seas|Bendito es tu nombre|Exaltada es tu majestad|No hay otro dios que Tú|Me refugio en Allah del demonio maldito"

  const Subhanaka: Phrase := Phrase(
    2.0,
    SubhanakaArabic,
    SubhanakaTransliteration,
    SubhanakaPhonetics,
    SubhanakaTranslation,
    7.0, 12.0,
    SubhanakaTiming)

  const Quraysh3Timing: string := "0.0-1.3|1.3-2.2|2.2-2.8|2.2-3.5|3.5-5.0"

  const Quraysh3Arabic: string := "فَلْيَعْبُدُوا|رَبَّ|هَٰذَا|الْبَيْتِ"
  const Quraysh3Transliteration: string := "Fal-yaʿbudū|rabba|hāḏā|l-bayt"
  const Quraysh3Phonetics: string := "Fal-yab-bu-dú|rab-ba|há-za|al-báit"
  const Quraysh3Translation: string := "Que adoren|pues|al Señor|de esta Casa (la Kaaba)"

  const Quraysh3: Phrase := Phrase(
    11.0,
    Quraysh3Arabic,
    Quraysh3Transliteration,
    Quraysh3Phonetics,
    Quraysh3Translation,
    58.0, 3.4,
    Quraysh3Timing)

  const Quraysh4Timing: string := "0-1.3|1.3-2.2|2.2-2.8|2.2-3.5|3.5-5.0"

  const Quraysh4Arabic: string := "الَّذِي|أَطْعَمَهُم|مِّن|جُوعٍ|وَآمَنَهُم|مِّنْ|خَوْفٍ"
  const Quraysh4Transliteration: string := "Alladhī|aṭʿamahum|min|jūʿin|wa āmana-hum|min|khawf"
  const Quraysh4Phonetics: string := "Al-la-dhí|at-a-ma-hum|min|yú-in|wa á-ma-na-hum|min|jáuf"
  const Quraysh4Translation: string := "Que les dio|de comer|cuando|tenían hambre|y les protegió|min|del temor"

  /** Its window, 61.6 s to 69.3 s, runs 0.3 s into the next phrase's. */
  const Quraysh4: Phrase := Phrase(
    12.0,
    Quraysh4Arabic,
    Quraysh4Transliteration,
    Quraysh4Phonetics,
    Quraysh4Translation,
    61.6, 7.7,
    Quraysh4Timing)

  const TakbirToRukuTiming: string := "69-70|70-71"

  const TakbirToRukuArabic: string := "الله أكبر"
  const TakbirToRukuTransliteration: string := "Allāhu Akbar"
  const TakbirToRukuPhonetics: string := "Al-lá-hu Ák-bar"
  const TakbirToRukuTranslation: string := "Dios es el más grande (al pasar de pie a la posición de inclinación)"

  const TakbirToRuku: Phrase := Phrase(
    13.0,
    TakbirToRukuArabic,
    TakbirToRukuTransliteration,
    TakbirToRukuPhonetics,
    TakbirToRukuTranslation,
    69.0, 2.0,
    TakbirToRukuTiming)

  const Table: seq<Phrase> := [Takbir, Subhanaka, Quraysh3, Quraysh4, TakbirToRuku]

  const TakbirLiterals: seq<(Literal, Literal)> := [(Dec(0, 0), Dec(2, 5))]

  function TakbirPieces(): seq<string> {
    seq(|TakbirLiterals|, i requires 0 <= i < |TakbirLiterals| => RangeText(TakbirLiterals[i]))
  }

  const SubhanakaLiterals: seq<(Literal, Literal)> := [(Dec(0, 0), Dec(2, 4)), (Dec(2, 4), Dec(4, 0)), (Dec(4, 0), Dec(5, 60)), (Dec(5, 60), Dec(7, 35)), (Dec(7, 35), Int(11))]

  function SubhanakaPieces(): seq<string> {
    seq(|SubhanakaLiterals|, i requires 0 <= i < |SubhanakaLiterals| => RangeText(SubhanakaLiterals[i]))
  }

  const Quraysh3Literals: seq<(Literal, Literal)> := [(Dec(0, 0), Dec(1, 3)), (Dec(1, 3), Dec(2, 2)), (Dec(2, 2), Dec(2, 8)), (Dec(2, 2), Dec(3, 5)), (Dec(3, 5), Dec(5, 0))]

  function Quraysh3Pieces(): seq<string> {
    seq(|Quraysh3Literals|, i requires 0 <= i < |Quraysh3Literals| => RangeText(Quraysh3Literals[i]))
  }

  const TakbirToRukuLiterals: seq<(Literal, Literal)> := [(Int(69), Int(70)), (Int(70), Int(71))]

  function TakbirToRukuPieces(): seq<string> {
    seq(|TakbirToRukuLiterals|, i requires 0 <= i < |TakbirToRukuLiterals| => RangeText(TakbirToRukuLiterals[i]))
  }
}
