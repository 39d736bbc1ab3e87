/**
  Results shared by the modelled components: an optional value, and the
  `Res<T>` of the Rust sources (`scupt_util::res::Res`), whose error side is
  the error kinds the core can produce.
 */
module Results {

  datatype Option<+T> = None | Some(value: T)

  /**
    `NoneOption` and `Eof` are the error kinds the core returns itself.
    `Panic` stands for a Rust panic (`unwrap` on `None`/`Err`, a failed
    `assert!`, an empty random range): nothing in the core catches one, so
    like an `Err` passed on by `?` it aborts every enclosing call.
    `External` is any error produced by code outside the model.
   */
  datatype Error = NoneOption | Eof | Panic | External(code: nat)

  datatype Res<+T> = Ok(value: T) | Err(error: Error)
}
