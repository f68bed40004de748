/**
 * The option lists of the enumerated columns (src/lib/database-enums.ts)
 * and the label of an approval value.
 */
module DatabaseEnums {
  import opened JsStrings
  import opened Seqs

  const StatusDealOptions: seq<string> := ["Pre-Leitura", "Leitura", "Ativa", "Encerrada", "Dead", "Backlog"]
  const PublicoAlvoOptions: seq<string> := ["PG", "IQ", "IP", "TBD"]
  const VeiculoOptions: seq<string> := ["FII", "FI-Agro", "FI-Infra", "FIDC", "FIP", "FIP-IE", "FIP/PCO", "FIC FIDC"]
  const ProdutoOptions: seq<string> := ["Listado", "Cetipado", "R+", "Tt. Ret", "TBD"]
  const SetorOptions: seq<string> := ["Lajes", "Shop", "R.Urb", "Hib", "CRI", "HF", "Log", "Infra", "Agro", "GC", "Espec.", "Outro"]
  const PrincipalIndexadorOptions: seq<string> := ["CDI", "IPCA", "%DI", "Pre", "Misto", "N/A"]
  const IpoFonOptions: seq<string> := ["IPO", "FOn", "TBD"]
  const TipoCotaOptions: seq<string> := ["Unica", "Sub", "Mez", "Senior"]
  const TipoOptions: seq<string> := ["TIJOLO", "CRI", "AGRO", "INFRA", "ALTERNATIVO", "FIDC"]

  /** The S/N/TBD columns: the approvals and the anchoring flag. */
  const ApprovalOptions: seq<string> := ["S", "N", "TBD"]
  const AncoragemOptions: seq<string> := ["S", "N", "TBD"]

  /** Every option list names each of its values once. */
  lemma OptionListsDistinct()
    ensures Distinct(StatusDealOptions) && Distinct(PublicoAlvoOptions) && Distinct(VeiculoOptions)
    ensures Distinct(ProdutoOptions) && Distinct(SetorOptions) && Distinct(PrincipalIndexadorOptions)
    ensures Distinct(IpoFonOptions) && Distinct(TipoCotaOptions) && Distinct(TipoOptions)
    ensures Distinct(ApprovalOptions) && Distinct(AncoragemOptions)
  {
  }

  /**
   * Three vehicle options hold a dash, so a vehicle can be a board row
   * whose key has a dash in it.
   */
  lemma DashedVehicles()
    ensures forall i :: 0 <= i < |VeiculoOptions| ==>
      ('-' in VeiculoOptions[i] <==> i == 1 || i == 2 || i == 5)
    ensures VeiculoOptions[1] == "FI-Agro" && VeiculoOptions[2] == "FI-Infra" && VeiculoOptions[5] == "FIP-IE"
  {
    forall i | 0 <= i < |VeiculoOptions|
      ensures '-' in VeiculoOptions[i] <==> i == 1 || i == 2 || i == 5
    {
      if i == 1 || i == 2 || i == 5 {
        assert VeiculoOptions[i][2] == '-' || VeiculoOptions[i][3] == '-';
      }
    }
  }

  /** `getApprovalLabel`: 'Sim' for S, 'Não' for N, 'Pendente' for anything else (TBD and null included). */
  function ApprovalLabel(value: Option<string>): (r: string)
    ensures value == Some("S") ==> r == "Sim"
    ensures value == Some("N") ==> r == "Não"
    ensures value != Some("S") && value != Some("N") ==> r == "Pendente"
  {
    if value == Some("S") then "Sim"
    else if value == Some("N") then "Não"
    else "Pendente"
  }

  /** The three labels are distinct, so the label tells S, N and the rest apart. */
  lemma ApprovalLabelInjective(a: Option<string>, b: Option<string>)
    requires ApprovalLabel(a) == ApprovalLabel(b)
    ensures a == Some("S") <==> b == Some("S")
    ensures a == Some("N") <==> b == Some("N")
  {
    assert "Sim" != "Não" && "Sim" != "Pendente" && "Não" != "Pendente";
  }

  /** Every approval option gets a label; only TBD among them is 'Pendente'. */
  lemma ApprovalOptionsLabelled(i: nat)
    requires i < |ApprovalOptions|
    ensures ApprovalLabel(Some(ApprovalOptions[i])) == "Pendente" <==> ApprovalOptions[i] == "TBD"
  {
  }
}
