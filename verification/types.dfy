/** The enumerations of the registry's data model, as the string values the application stores. */
module Types {

  /** Household relationship roles, in declaration order. */
  const HEAD := "Titular"
  const SPOUSE := "Cônjuge"
  const CHILD := "Filho(a)"
  const PARENT := "Pai/Mãe"
  const GRANDPARENT := "Avô/Avó"
  const GRANDCHILD := "Neto(a)"
  const SIBLING := "Irmão/Irmã"
  const UNCLE_AUNT := "Tio(a)"
  const NEPHEW_NIECE := "Sobrinho(a)"
  const STEPCHILD := "Enteado(a)"
  const OTHER := "Outro"

  const Relationships: seq<string> :=
    [HEAD, SPOUSE, CHILD, PARENT, GRANDPARENT, GRANDCHILD, SIBLING, UNCLE_AUNT, NEPHEW_NIECE, STEPCHILD, OTHER]

  /** Civil status: the form preselects SINGLE. */
  const SINGLE := "Solteiro(a)"

  /** Agent roles. */
  const ADMIN := "Administrador (Master)"
  const OPERATOR := "Usuário Comum"

  /** Operating modes of an installation. */
  const SERVER := "SERVIDOR_CENTRAL"
  const STATION := "ESTACAO_COLETA"
}
