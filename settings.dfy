/** The resolved configuration the program runs with. Reading and decoding the
    configuration file is not part of this model; only the record is. */
module Settings {

  datatype Config = Config(user_to_fetch: string, client_token: string, img_out_path: string, threads: nat)
}
