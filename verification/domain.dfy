/** The entities the services read and write, reduced to the fields the services touch. */
module Domain {
  import opened Wrappers

  /** Role of an authenticated user. */
  datatype Perfil = ADMIN | CLIENTE

  datatype TipoCliente = PessoaFisica | PessoaJuridica

  /** A customer. The fields that the public customer DTO does not carry are nullable. */
  datatype Cliente = Cliente(
    id: int,
    nome: string,
    email: string,
    cpfOuCnpj: Option<string>,
    tipo: Option<TipoCliente>,
    senha: Option<string>)

  /** The customer DTO used for updates: id, name and email only. */
  datatype ClienteDto = ClienteDto(id: int, nome: string, email: string)

  datatype Categoria = Categoria(id: int, nome: string)

  datatype CategoriaDto = CategoriaDto(id: int, nome: string)

  /** A product and the ids of the categories it belongs to (the product/category join table). */
  datatype Produto = Produto(id: int, nome: string, categorias: set<int>)

  /** The authenticated principal: customer id, username (the customer's email) and roles. */
  datatype UserSS = UserSS(id: int, username: string, perfis: set<Perfil>)

  predicate HasRole(user: UserSS, perfil: Perfil) {
    perfil in user.perfis
  }

  /** Fully qualified class names that ObjectNotFoundException messages carry. */
  const CLIENTE_CLASS := "br.com.jhonicosta.cursomc.domain.Cliente"
  const CATEGORIA_CLASS := "br.com.jhonicosta.cursomc.domain.Categoria"
  const PRODUTO_CLASS := "br.com.jhonicosta.cursomc.domain.Produto"
}
