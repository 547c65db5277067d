// The parts of a catalog that name files and keys: core/src/catalog/schema.rs.
module Catalog {

  datatype Risk = Low | Medium | High | Critical

  datatype View = Bits32 | Bits64 | Both

  datatype RegistryEntry = RegistryEntry(key: string, view: View)

  datatype AntiCheat = AntiCheat(
    id: string,
    risk: Risk,
    authenticodeCn: seq<string>,
    services: seq<string>,
    drivers: seq<string>,
    paths: seq<string>,
    registry: seq<RegistryEntry>)

  datatype Game = Game(
    id: string,
    installHints: seq<string>,
    residue: seq<string>,
    saves: seq<string>,
    registry: seq<RegistryEntry>)

  datatype Catalog = Catalog(anticheat: seq<AntiCheat>, games: seq<Game>)
}
