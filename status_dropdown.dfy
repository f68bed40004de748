/**
 * The status picker of the details dialog (src/components/ui/status-dropdown.tsx):
 * the six statuses, the badge shown for the current value and the menu.
 */
module StatusDropdown {
  import opened JsStrings
  import DatabaseEnums

  /** `DealStatus`. */
  datatype DealStatus = Ativa | Encerrada | Leitura | PreLeitura | Dead | Backlog

  /** The string a status is stored as. */
  function StatusName(s: DealStatus): (r: string)
    ensures r in DatabaseEnums.StatusDealOptions
  {
    match s
    case Ativa => "Ativa"
    case Encerrada => "Encerrada"
    case Leitura => "Leitura"
    case PreLeitura => "Pre-Leitura"
    case Dead => "Dead"
    case Backlog => "Backlog"
  }

  /** The status a stored string names, if any. */
  function ParseStatus(v: string): (r: Option<DealStatus>)
    ensures r.Some? ==> StatusName(r.value) == v
  {
    if v == "Ativa" then Some(Ativa)
    else if v == "Encerrada" then Some(Encerrada)
    else if v == "Leitura" then Some(Leitura)
    else if v == "Pre-Leitura" then Some(PreLeitura)
    else if v == "Dead" then Some(Dead)
    else if v == "Backlog" then Some(Backlog)
    else None
  }

  /** Reading back a stored status gives that status. */
  lemma ParseStatusName(s: DealStatus)
    ensures ParseStatus(StatusName(s)) == Some(s)
  {
  }

  /** One entry of `statusConfig`. The pre-reading label is stored mis-encoded in the source and kept so. */
  datatype Config = Config(caption: string, color: string, bgColor: string)

  function StatusConfig(s: DealStatus): (r: Config)
    ensures s != PreLeitura <==> r.caption == StatusName(s)
    ensures |r.color| > 5 && r.color[..5] == "text-"
    ensures |r.bgColor| > 3 && r.bgColor[..3] == "bg-"
  {
    match s
    case Ativa => Themed("Ativa", "green")
    case Encerrada => Themed("Encerrada", "gray")
    case Leitura => Themed("Leitura", "blue")
    case PreLeitura => Themed("Pr\U{221A}\U{00A9}-Leitura", "yellow")
    case Dead => Themed("Dead", "red")
    case Backlog => Themed("Backlog", "purple")
  }

  /** An entry in one Tailwind hue: `text-<hue>-700` and `bg-<hue>-100 hover:bg-<hue>-200`. */
  function Themed(caption: string, hue: string): (r: Config)
    ensures r.caption == caption
    ensures |r.color| > 5 && r.color[..5] == "text-"
    ensures |r.bgColor| > 3 && r.bgColor[..3] == "bg-"
  {
    var color := "text-" + hue + "-700";
    var bgColor := "bg-" + hue + "-100 hover:bg-" + hue + "-200";
    assert color[..5] == "text-" && bgColor[..3] == "bg-";
    Config(caption, color, bgColor)
  }

  /** `(value as DealStatus) || 'Ativa'`: the value the select shows. */
  function CurrentStatus(value: Option<string>): (r: string)
    ensures value.None? || value == Some("") ==> r == "Ativa"
    ensures value.Some? && value != Some("") ==> r == value.value
  {
    if value.Some? && value.value != "" then value.value else "Ativa"
  }

  /** `statusConfig[currentStatus] || statusConfig['Ativa']`: the badge's colours and label. */
  function BadgeConfig(value: Option<string>): (r: Config)
    ensures ParseStatus(CurrentStatus(value)).None? ==> r == StatusConfig(Ativa)
    ensures ParseStatus(CurrentStatus(value)).Some? ==> r == StatusConfig(ParseStatus(CurrentStatus(value)).value)
  {
    match ParseStatus(CurrentStatus(value))
    case Some(s) => StatusConfig(s)
    case None => StatusConfig(Ativa)
  }

  /** A missing or empty status, and any unknown one, is shown with the active badge. */
  lemma UnknownShownActive(value: Option<string>)
    requires value.None? || value == Some("") || (value.Some? && ParseStatus(value.value).None?)
    ensures BadgeConfig(value) == StatusConfig(Ativa)
  {
  }

  /** `Object.entries(statusConfig)`: the menu, in declaration order. */
  const MenuStatuses: seq<DealStatus> := [Ativa, Encerrada, Leitura, PreLeitura, Dead, Backlog]

  /** The menu lists every status exactly once. */
  lemma MenuListsEveryStatusOnce(s: DealStatus)
    ensures s in MenuStatuses
    ensures forall i, j :: 0 <= i < j < |MenuStatuses| ==> MenuStatuses[i] != MenuStatuses[j]
  {
  }

  /** The menu's values are exactly the database's status options, in another order. */
  lemma MenuMatchesDatabaseOptions(v: string)
    ensures (exists i :: 0 <= i < |MenuStatuses| && StatusName(MenuStatuses[i]) == v) <==> v in DatabaseEnums.StatusDealOptions
  {
    if v in DatabaseEnums.StatusDealOptions {
      var s := ParseStatus(v).value;
      assert StatusName(MenuStatuses[MenuIndex(s)]) == v;
    }
  }

  function MenuIndex(s: DealStatus): (i: nat)
    ensures i < |MenuStatuses| && MenuStatuses[i] == s
  {
    match s
    case Ativa => 0
    case Encerrada => 1
    case Leitura => 2
    case PreLeitura => 3
    case Dead => 4
    case Backlog => 5
  }

  /** `onValueChange`: choosing a menu entry passes its status on unchanged. */
  function Select(chosen: DealStatus): (r: string)
    ensures ParseStatus(r) == Some(chosen)
  {
    StatusName(chosen)
  }
}
