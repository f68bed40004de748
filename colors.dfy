/**
 * The tag colours (src/lib/colors.ts): one table per tag kind, looked up
 * by the tag's value, with grey for a value the table does not know.
 * A table is kept as its entries in declaration order, which is the
 * order `Object.keys` lists them in.
 */
module Colors {
  import opened JsStrings
  import opened Seqs

  /** `ColorConfig`. */
  datatype ColorConfig = ColorConfig(bg: string, text: string, caption: string)

  /** A table: its keys in declaration order and the colours of the keys at the same positions. */
  datatype Table = Table(keys: seq<string>, configs: seq<ColorConfig>)

  const VehicleKeys: seq<string> := [
    "Debênture", "CRI", "CRA", "FII", "FIDC", "LCA", "LCI"
  ]

  const VehicleColors := Table(VehicleKeys, [
    ColorConfig("bg-blue-500", "text-blue-600", "Debênture"),
    ColorConfig("bg-emerald-500", "text-emerald-600", "CRI"),
    ColorConfig("bg-orange-500", "text-orange-600", "CRA"),
    ColorConfig("bg-cyan-500", "text-cyan-600", "FII"),
    ColorConfig("bg-pink-500", "text-pink-600", "FIDC"),
    ColorConfig("bg-lime-500", "text-lime-600", "LCA"),
    ColorConfig("bg-violet-500", "text-violet-600", "LCI")
  ])

  const IndexerKeys: seq<string> := [
    "IPCA+", "CDI+", "CDI", "IPCA", "IGP-M", "TR+", "Selic", "Pré"
  ]

  const IndexerColors := Table(IndexerKeys, [
    ColorConfig("bg-purple-500", "text-purple-600", "IPCA+"),
    ColorConfig("bg-teal-500", "text-teal-600", "CDI+"),
    ColorConfig("bg-sky-500", "text-sky-600", "CDI"),
    ColorConfig("bg-indigo-500", "text-indigo-600", "IPCA"),
    ColorConfig("bg-rose-500", "text-rose-600", "IGP-M"),
    ColorConfig("bg-amber-500", "text-amber-600", "TR+"),
    ColorConfig("bg-slate-500", "text-slate-600", "Selic"),
    ColorConfig("bg-stone-500", "text-stone-600", "Pré")
  ])

  const SectorKeys: seq<string> := [
    "Agronegócio", "Energia", "Imobiliário", "Logística", "Infraestrutura", "Varejo", "Tecnologia", "Saúde", "Educação", "Financeiro"
  ]

  const SectorColors := Table(SectorKeys, [
    ColorConfig("bg-green-600", "text-green-700", "Agronegócio"),
    ColorConfig("bg-yellow-500", "text-yellow-600", "Energia"),
    ColorConfig("bg-red-500", "text-red-600", "Imobiliário"),
    ColorConfig("bg-indigo-600", "text-indigo-700", "Logística"),
    ColorConfig("bg-gray-600", "text-gray-700", "Infraestrutura"),
    ColorConfig("bg-fuchsia-500", "text-fuchsia-600", "Varejo"),
    ColorConfig("bg-blue-600", "text-blue-700", "Tecnologia"),
    ColorConfig("bg-emerald-600", "text-emerald-700", "Saúde"),
    ColorConfig("bg-orange-600", "text-orange-700", "Educação"),
    ColorConfig("bg-purple-600", "text-purple-700", "Financeiro")
  ])

  const ProductKeys: seq<string> := [
    "Private Credit", "Real Estate", "Infrastructure", "Agribusiness", "Structured", "Credit", "Mixed", "Listado", "Cetipado", "R+", "Tt. Ret."
  ]

  const ProductColors := Table(ProductKeys, [
    ColorConfig("bg-slate-600", "text-slate-700", "Private Credit"),
    ColorConfig("bg-amber-600", "text-amber-700", "Real Estate"),
    ColorConfig("bg-zinc-600", "text-zinc-700", "Infrastructure"),
    ColorConfig("bg-emerald-500", "text-emerald-600", "Agribusiness"),
    ColorConfig("bg-neutral-600", "text-neutral-700", "Structured"),
    ColorConfig("bg-blue-700", "text-blue-700", "Credit"),
    ColorConfig("bg-gradient-to-r from-blue-500 to-purple-500", "text-purple-600", "Mixed"),
    ColorConfig("bg-blue-500", "text-blue-600", "Listado"),
    ColorConfig("bg-green-500", "text-green-600", "Cetipado"),
    ColorConfig("bg-purple-500", "text-purple-600", "R+"),
    ColorConfig("bg-yellow-500", "text-yellow-600", "Tt. Ret.")
  ])

  const TipoKeys: seq<string> := [
    "A", "B", "C", "Senior", "Sênior", "Subordinada", "Subordinado", "Mezanino", "Preferencial"
  ]

  const TipoColors := Table(TipoKeys, [
    ColorConfig("bg-emerald-600", "text-white", "Tipo A"),
    ColorConfig("bg-blue-600", "text-white", "Tipo B"),
    ColorConfig("bg-orange-600", "text-white", "Tipo C"),
    ColorConfig("bg-green-700", "text-white", "Senior"),
    ColorConfig("bg-green-700", "text-white", "Sênior"),
    ColorConfig("bg-red-600", "text-white", "Subordinada"),
    ColorConfig("bg-red-600", "text-white", "Subordinado"),
    ColorConfig("bg-yellow-600", "text-white", "Mezanino"),
    ColorConfig("bg-purple-600", "text-white", "Preferencial")
  ])

  const DefaultColors := ColorConfig("bg-gray-400", "text-gray-600", "N/A")

  /** The position of the first `key` in `keys`, or -1. */
  function FirstIndex(keys: seq<string>, key: string): (r: int)
    ensures -1 <= r < |keys|
    ensures r == -1 <==> key !in keys
    ensures r >= 0 ==> keys[r] == key && key !in keys[..r]
  {
    if keys == [] then -1
    else if keys[0] == key then 0
    else
      var r := FirstIndex(keys[1..], key);
      if r == -1 then -1 else (assert keys[..r + 1] == [keys[0]] + keys[1..][..r]; r + 1)
  }

  /** `TABLE[key]`: the colour at the key's first position, or nothing for a key the table lacks. */
  function Lookup(table: Table, key: string): (r: Option<ColorConfig>)
    ensures key !in table.keys ==> r.None?
    ensures key in table.keys && |table.keys| == |table.configs| ==>
      r == Some(table.configs[FirstIndex(table.keys, key)])
  {
    var i := FirstIndex(table.keys, key);
    if 0 <= i < |table.configs| then Some(table.configs[i]) else None
  }

  /**
   * `TABLE[key] || { ...DEFAULT_COLORS, label: key || 'Outros' }`: the
   * table's entry, or grey captioned with the key ('Outros' for '').
   */
  function ColorFor(table: Table, key: string): (r: ColorConfig)
    ensures Lookup(table, key).Some? ==> r == Lookup(table, key).value
    ensures Lookup(table, key).None? ==>
      r.bg == "bg-gray-400" && r.text == "text-gray-600" && r.caption == (if key == "" then "Outros" else key)
  {
    match Lookup(table, key)
    case Some(c) => c
    case None => DefaultColors.(caption := if key == "" then "Outros" else key)
  }


  /** `getAvailableVehicles()`: the keys of the table, in declaration order, each once; each has a colour. */
  function AvailableVehicles(): (r: seq<string>)
    ensures forall k :: k in r <==> Lookup(VehicleColors, k).Some?
    ensures Distinct(r)
  {
    VehicleKeys
  }

  function AvailableIndexers(): (r: seq<string>)
    ensures forall k :: k in r <==> Lookup(IndexerColors, k).Some?
    ensures Distinct(r)
  {
    IndexerKeys
  }

  function AvailableSectors(): (r: seq<string>)
    ensures forall k :: k in r <==> Lookup(SectorColors, k).Some?
    ensures Distinct(r)
  {
    SectorKeys
  }

  function AvailableProducts(): (r: seq<string>)
    ensures forall k :: k in r <==> Lookup(ProductColors, k).Some?
    ensures Distinct(r)
  {
    ProductKeys
  }

  function AvailableTipos(): (r: seq<string>)
    ensures forall k :: k in r <==> Lookup(TipoColors, k).Some?
    ensures Distinct(r)
  {
    TipoKeys
  }

  /** `getVehicleColor` and the four like it: a listed key's colour, or grey captioned with the key. */
  function VehicleColor(vehicle: string): (r: ColorConfig)
    ensures vehicle in AvailableVehicles() ==> Some(r) == Lookup(VehicleColors, vehicle)
    ensures vehicle !in AvailableVehicles() ==> r == DefaultColors.(caption := if vehicle == "" then "Outros" else vehicle)
  {
    ColorFor(VehicleColors, vehicle)
  }

  function IndexerColor(indexer: string): (r: ColorConfig)
    ensures indexer in AvailableIndexers() ==> Some(r) == Lookup(IndexerColors, indexer)
    ensures indexer !in AvailableIndexers() ==> r == DefaultColors.(caption := if indexer == "" then "Outros" else indexer)
  {
    ColorFor(IndexerColors, indexer)
  }

  function SectorColor(sector: string): (r: ColorConfig)
    ensures sector in AvailableSectors() ==> Some(r) == Lookup(SectorColors, sector)
    ensures sector !in AvailableSectors() ==> r == DefaultColors.(caption := if sector == "" then "Outros" else sector)
  {
    ColorFor(SectorColors, sector)
  }

  function ProductColor(product: string): (r: ColorConfig)
    ensures product in AvailableProducts() ==> Some(r) == Lookup(ProductColors, product)
    ensures product !in AvailableProducts() ==> r == DefaultColors.(caption := if product == "" then "Outros" else product)
  {
    ColorFor(ProductColors, product)
  }

  function TipoColor(tipo: string): (r: ColorConfig)
    ensures tipo in AvailableTipos() ==> Some(r) == Lookup(TipoColors, tipo)
    ensures tipo !in AvailableTipos() ==> r == DefaultColors.(caption := if tipo == "" then "Outros" else tipo)
  {
    ColorFor(TipoColors, tipo)
  }

  /** A tag shown as `deal.x || 'Outros'` with no value is grey and captioned 'Outros' in every table. */
  lemma OutrosIsUnknown()
    ensures VehicleColor("Outros") == ColorConfig("bg-gray-400", "text-gray-600", "Outros")
    ensures IndexerColor("Outros") == ColorConfig("bg-gray-400", "text-gray-600", "Outros")
    ensures SectorColor("Outros") == ColorConfig("bg-gray-400", "text-gray-600", "Outros")
    ensures ProductColor("Outros") == ColorConfig("bg-gray-400", "text-gray-600", "Outros")
    ensures TipoColor("Outros") == ColorConfig("bg-gray-400", "text-gray-600", "Outros")
  {
    OutrosNotKey();
  }

  lemma OutrosNotKey()
    ensures "Outros" !in VehicleKeys && "Outros" !in IndexerKeys && "Outros" !in SectorKeys
    ensures "Outros" !in ProductKeys && "Outros" !in TipoKeys
  {
    OutrosNotProduct();
  }

  lemma OutrosNotProduct()
    ensures "Outros" !in ProductKeys
  {
  }

  /** The share classes A to C are captioned 'Tipo A' to 'Tipo C' rather than with their key. */
  lemma TipoCaptions()
    ensures TipoColor("A").caption == "Tipo A" && TipoColor("B").caption == "Tipo B" && TipoColor("C").caption == "Tipo C"
  {
    TipoFirstKeys();
    TipoFirstCaptions();
  }

  lemma TipoFirstCaptions()
    ensures |TipoColors.configs| == |TipoKeys|
    ensures TipoColors.configs[0].caption == "Tipo A" && TipoColors.configs[1].caption == "Tipo B"
    ensures TipoColors.configs[2].caption == "Tipo C"
  {
  }

  lemma TipoFirstKeys()
    ensures FirstIndex(TipoKeys, "A") == 0 && FirstIndex(TipoKeys, "B") == 1 && FirstIndex(TipoKeys, "C") == 2
  {
    assert TipoKeys[0] == "A" && TipoKeys[1] == "B" && TipoKeys[2] == "C";
    assert TipoKeys[..1] == ["A"] && TipoKeys[..2] == ["A", "B"];
  }
}
