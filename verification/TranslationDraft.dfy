/** A translation migration drafted: what the local shop has new or different from the base. */
module TranslationDraft {
  /** Where texts are: a legacy file, or a domain of a locale. */
  datatype Place = File(path: string) | Domain(locale: string, domain: string)

  type Texts = map<string, string>

  type Data = map<Place, Texts>

  function TextsAt(data: Data, place: Place): Texts {
    if place in data then data[place] else map[]
  }

  function Found(entries: Texts, before: Texts): Texts {
    map key | key in entries && !(key in before && before[key] == entries[key]) :: entries[key]
  }

  /** Only places where something is found. */
  function Changes(current: Data, base: Data): Data {
    map place | place in current && Found(current[place], TextsAt(base, place)) != map[] ::
      Found(current[place], TextsAt(base, place))
  }

  method Difference(current: Data, places: seq<Place>, base: Data) returns (changed: Data)
    requires forall place :: place in places <==> place in current
    ensures changed == Changes(current, base)
  {
    changed := map[];
    for i := 0 to |places|
      invariant forall place :: place in changed <==> place in places[..i] && place in Changes(current, base)
      invariant forall place :: place in changed ==> changed[place] == Changes(current, base)[place]
    {
      var place := places[i];
      var found := Found(current[place], TextsAt(base, place));
      if found != map[] {
        changed := changed[place := found];
      }
    }
  }

  /** The texts of a migration over those of a shop: nothing is deleted. */
  function Overlaid(base: Data, migration: Data): Data {
    map place | place in base.Keys + migration.Keys :: TextsAt(base, place) + TextsAt(migration, place)
  }

  /** Where the draft is applied to the base, every text of the current shop is there, and every other text of the base. */
  lemma DraftCarriesOver(current: Data, base: Data, place: Place, key: string)
    ensures var after := TextsAt(Overlaid(base, Changes(current, base)), place);
            && (key in TextsAt(current, place) ==> key in after && after[key] == current[place][key])
            && (key !in TextsAt(current, place) ==>
                  (key in after <==> key in TextsAt(base, place)) && (key in after ==> after[key] == base[place][key]))
  {
    var now, before := TextsAt(current, place), TextsAt(base, place);
    if place in current && key in now && Found(now, before) == map[] {
      assert key !in Found(now, before);
    }
  }

  /** Then nothing is left to draft. */
  lemma DraftTaken(current: Data, base: Data)
    ensures Changes(current, Overlaid(base, Changes(current, base))) == map[]
  {
    var after := Overlaid(base, Changes(current, base));
    forall place | place in current
      ensures Found(current[place], TextsAt(after, place)) == map[]
    {
      forall key | key in current[place]
        ensures key !in Found(current[place], TextsAt(after, place))
      {
        DraftCarriesOver(current, base, place, key);
      }
    }
  }
}
